/** `ControlClient`: selective receive over one wire.  Messages that an operation passes over are
    kept, in arrival order, for later operations; none is lost, none is delivered twice. */
module ControlClient {
  import opened Wrappers

  /** `capabilities` is what the body reads as when taken for adapter capabilities, if it does. */
  datatype Body = Body(reason: Option<string>, threadId: Option<int>, capabilities: Option<string>, rest: string)

  datatype Message =
    | Request(seqNo: int, command: string)
    | Response(seqNo: int, requestSeq: int, success: bool, name: Option<string>, body: Option<Body>)
    | Event(seqNo: int, event: string, body: Option<Body>)

  /** What an operation waits for. */
  datatype Want = ResponseTo(number: int) | ResponseNamed(command: string) | EventNamed(event: string)

  predicate Fits(m: Message, want: Want) {
    match want
    case ResponseTo(n) => m.Response? && m.requestSeq == n
    case ResponseNamed(c) => m.Response? && m.name == Some(c)
    case EventNamed(e) => m.Event? && m.event == e
  }

  /** The first position in `[from, end)` that fits and has not been handed out. */
  function Earliest(wire: seq<Message>, taken: seq<nat>, want: Want, from: nat, end: nat): (p: Option<nat>)
    requires from <= end <= |wire|
    ensures p.Some? ==> from <= p.value < end && Fits(wire[p.value], want) && p.value !in taken
    ensures p.Some? ==> forall q: nat :: from <= q < p.value ==> q in taken || !Fits(wire[q], want)
    ensures p.None? ==> forall q: nat :: from <= q < end ==> q in taken || !Fits(wire[q], want)
    decreases end - from
  {
    if from == end then None
    else if Fits(wire[from], want) && from !in taken then Some(from)
    else Earliest(wire, taken, want, from + 1, end)
  }

  /** Where a client is on its wire: positions handed out so far, how far it has read, and the
      number of its next request. */
  datatype Cursor = Cursor(taken: seq<nat>, read: nat, seqNo: int)

  function Take(c: Cursor, p: nat): Cursor {
    Cursor(c.taken + [p], Max(c.read, p + 1), c.seqNo)
  }

  /** The two ways of waiting: on the wire alone, or among the kept messages first. */
  datatype Wait = OnWire(want: Want) | KeptFirst(want: Want)

  /** Where a wait that runs into no deadline leaves the client, if it succeeds at all. */
  function Await(wire: seq<Message>, c: Cursor, w: Wait): (r: Option<Cursor>)
    requires c.read <= |wire|
    ensures r.Some? ==> c.read <= r.value.read <= |wire| && |r.value.taken| == |c.taken| + 1
    ensures r.Some? ==> r.value.taken[..|c.taken|] == c.taken && r.value.seqNo == c.seqNo
    ensures r.Some? ==> Last(r.value) < r.value.read && Fits(wire[Last(r.value)], w.want)
  {
    match w
    case OnWire(want) =>
      (match Earliest(wire, [], want, c.read, |wire|)
       case Some(p) => Some(Take(c, p))
       case None => None)
    case KeptFirst(want) =>
      (match Earliest(wire, c.taken, want, 0, |wire|)
       case Some(p) => Some(Take(c, p))
       case None => None)
  }

  /** The position handed out last. */
  function Last(c: Cursor): nat
    requires c.taken != []
  {
    c.taken[|c.taken| - 1]
  }

  ghost predicate Increasing(s: seq<nat>) {
    forall i, j :: 0 <= i < j < |s| ==> s[i] < s[j]
  }

  ghost predicate NoDuplicates(s: seq<nat>) {
    forall i, j :: 0 <= i < |s| && 0 <= j < |s| && s[i] == s[j] ==> i == j
  }

  /** Every position read so far has either been handed out or is kept, never both. */
  ghost predicate Partition(kept: seq<nat>, taken: seq<nat>, read: nat) {
    && Increasing(kept) && NoDuplicates(taken)
    && Within(kept, read) && Within(taken, read)
    && (forall p: nat :: p < read ==> (p in kept <==> p !in taken))
  }

  ghost predicate Within(positions: seq<nat>, bound: nat) {
    forall i :: 0 <= i < |positions| ==> positions[i] < bound
  }

  ghost function At(wire: seq<Message>, positions: seq<nat>): (s: seq<Message>)
    requires Within(positions, |wire|)
    ensures |s| == |positions|
  {
    seq(|positions|, i requires 0 <= i < |positions| => wire[positions[i]])
  }

  class ControlClient {
    /** Everything the peer sends before it closes the connection. */
    const wire: seq<Message>
    var read: nat
    var pending: seq<Message>
    var seqNo: int
    var sent: seq<Message>
    var capabilities: Option<string>

    ghost var kept: seq<nat>
    ghost var taken: seq<nat>

    ghost predicate Valid()
      reads this
    {
      && read <= |wire|
      && Partition(kept, taken, read)
      && pending == At(wire, kept)
    }

    ghost function Where(): Cursor
      reads this
    {
      Cursor(taken, read, seqNo)
    }

    /** Everything handed out so far, in the order it was handed out. */
    ghost function Handed(): seq<Message>
      requires Valid()
      reads this
    {
      At(wire, taken)
    }

    constructor (wire: seq<Message>, seqNo: int)
      ensures Valid() && Where() == Cursor([], 0, seqNo) && pending == [] && this.wire == wire && sent == []
      ensures capabilities == None && Handed() == []
    {
      this.wire, this.seqNo := wire, seqNo;
      read, pending, sent, capabilities, kept, taken := 0, [], [], None, [], [];
    }

    /** The next request number goes out; no answer is awaited here. */
    method SendDapRequest(command: string) returns (n: int)
      requires Valid()
      modifies this`seqNo, this`sent
      ensures Valid() && n == old(seqNo) && seqNo == n + 1
      ensures sent == old(sent) + [Request(n, command)]
    {
      n := seqNo;
      seqNo := seqNo + 1;
      sent := sent + [Request(n, command)];
    }

    /** Removes the first kept message that fits. */
    method TakePending(want: Want) returns (r: Option<Message>)
      requires Valid()
      modifies this`pending, this`kept, this`taken
      ensures Valid()
      ensures match Earliest(wire, old(taken), want, 0, read)
              case Some(p) => r == Some(wire[p]) && taken == old(taken) + [p]
              case None => r == None && taken == old(taken) && pending == old(pending)
      ensures Handed() == old(Handed()) + Given(r)
    {
      var index := 0;
      while index < |pending|
        invariant index <= |pending|
        invariant forall i :: 0 <= i < index ==> !Fits(pending[i], want)
      {
        if Fits(pending[index], want) {
          r := Some(pending[index]);
          assert forall i :: 0 <= i < |kept| ==> pending[i] == wire[kept[i]];
          KeptIsEarliest(wire, kept, taken, read, want, index);
          InBounds(wire, kept, taken, read);
          hide Partition, At, Within, Earliest;
          RemovalKeepsPartition(kept, taken, read, index);
          HandedGrows(wire, taken, kept[index]);
          AtWithout(wire, kept, index);
          taken := taken + [kept[index]];
          kept := kept[..index] + kept[index + 1..];
          pending := pending[..index] + pending[index + 1..];
          return;
        }
        index := index + 1;
      }
      assert forall i :: 0 <= i < |kept| ==> pending[i] == wire[kept[i]];
      NoneKept(wire, kept, taken, read, want);
      r := None;
    }

    /** Reads from the wire, keeping what does not fit, until something fits, the wire closes, or
        `inTime` messages have been read. */
    method TakeFromWire(want: Want, inTime: nat) returns (r: Option<Message>)
      requires Valid()
      modifies this`read, this`pending, this`kept, this`taken
      ensures Valid()
      ensures var limit := Min(|wire|, old(read) + inTime);
        match Earliest(wire, [], want, old(read), limit)
        case Some(p) => r == Some(wire[p]) && taken == old(taken) + [p] && read == p + 1
        case None => r == None && taken == old(taken) && read == limit
      ensures Handed() == old(Handed()) + Given(r)
    {
      var left := inTime;
      while read < |wire| && left > 0
        invariant Valid() && old(read) <= read <= |wire| && left <= inTime && read - old(read) == inTime - left
        invariant taken == old(taken)
        invariant left >= 0 && forall p :: old(read) <= p < read ==> !Fits(wire[p], want)
        decreases left
      {
        hide Partition, At, Within;
        var message := wire[read];
        ReadKeepsPartition(kept, taken, read);
        InBounds(wire, kept, taken, read);
        HandedGrows(wire, kept, read);
        HandedGrows(wire, taken, read);
        read := read + 1;
        left := left - 1;
        if Fits(message, want) {
          taken := taken + [read - 1];
          return Some(message);
        }
        kept := kept + [read - 1];
        pending := pending + [message];
      }
      r := None;
    }

    /** Kept messages first, then the wire. */
    method Wait(want: Want, inTime: nat) returns (r: Option<Message>)
      requires Valid()
      modifies this`read, this`pending, this`kept, this`taken
      ensures Valid()
      ensures var limit := Max(old(read), Min(|wire|, old(read) + inTime));
        match Earliest(wire, old(taken), want, 0, limit)
        case Some(p) => r == Some(wire[p]) && Where() == Take(old(Where()), p)
        case None => r == None && taken == old(taken) && read == limit
      ensures Handed() == old(Handed()) + Given(r)
    {
      var limit := Max(read, Min(|wire|, read + inTime));
      EarliestSplits(wire, taken, want, 0, read, limit);
      UnreadIsUntaken(wire, kept, taken, read, want, limit);
      r := TakePending(want);
      if r.None? {
        r := TakeFromWire(want, inTime);
      }
    }

    method WaitForResponseSeq(n: int) returns (r: Option<Message>)
      requires Valid()
      modifies this`read, this`pending, this`kept, this`taken
      ensures Valid()
      ensures r.Some? ==> r.value.Response? && r.value.requestSeq == n && taken != []
      ensures forall q: nat :: q < (if r.Some? then Last(Where()) else |wire|) ==>
        (wire[q].Response? && wire[q].requestSeq == n ==> q in old(taken))
      ensures match Earliest(wire, old(taken), ResponseTo(n), 0, |wire|)
              case Some(p) => r == Some(wire[p]) && Where() == Take(old(Where()), p)
              case None => r == None && taken == old(taken) && read == |wire|
      ensures Handed() == old(Handed()) + Given(r)
    {
      r := Wait(ResponseTo(n), |wire|);
    }

    method WaitForResponseNamed(command: string) returns (r: Option<Message>)
      requires Valid()
      modifies this`read, this`pending, this`kept, this`taken
      ensures Valid()
      ensures r.Some? ==> r.value.Response? && r.value.name == Some(command) && taken != []
      ensures forall q: nat :: q < (if r.Some? then Last(Where()) else |wire|) ==>
        (wire[q].Response? && wire[q].name == Some(command) ==> q in old(taken))
      ensures match Earliest(wire, old(taken), ResponseNamed(command), 0, |wire|)
              case Some(p) => r == Some(wire[p]) && Where() == Take(old(Where()), p)
              case None => r == None && taken == old(taken) && read == |wire|
      ensures Handed() == old(Handed()) + Given(r)
    {
      r := Wait(ResponseNamed(command), |wire|);
    }

    /** `inTime` is how many more messages arrive before the deadline. */
    method WaitForEvent(name: string, inTime: nat) returns (r: Option<Message>)
      requires Valid()
      modifies this`read, this`pending, this`kept, this`taken
      ensures Valid()
      ensures r.Some? ==> r.value.Event? && r.value.event == name && taken != []
      ensures forall q: nat :: q < (if r.Some? then Last(Where()) else read) ==>
        (wire[q].Event? && wire[q].event == name ==> q in old(taken))
      ensures var limit := Max(old(read), Min(|wire|, old(read) + inTime));
        match Earliest(wire, old(taken), EventNamed(name), 0, limit)
        case Some(p) => r == Some(wire[p]) && Where() == Take(old(Where()), p)
        case None => r == None && taken == old(taken) && read == limit
      ensures Handed() == old(Handed()) + Given(r)
    {
      r := Wait(EventNamed(name), inTime);
    }

    /** Sends a request and waits on the wire alone for its response. */
    method DapRequestPreserveEvents(command: string, inTime: nat) returns (r: Option<Message>)
      requires Valid()
      modifies this`read, this`pending, this`seqNo, this`sent, this`kept, this`taken
      ensures Valid() && seqNo == old(seqNo) + 1
      ensures sent == old(sent) + [Request(old(seqNo), command)]
      ensures r.Some? ==> r.value.Response? && r.value.requestSeq == old(seqNo)
      ensures forall q: nat :: old(read) <= q < (if r.Some? then read - 1 else read) ==>
        !(wire[q].Response? && wire[q].requestSeq == old(seqNo))
      ensures var limit := Min(|wire|, old(read) + inTime);
        match Earliest(wire, [], ResponseTo(old(seqNo)), old(read), limit)
        case Some(p) => r == Some(wire[p]) && taken == old(taken) + [p] && read == p + 1
        case None => r == None && taken == old(taken) && read == limit
      ensures Handed() == old(Handed()) + Given(r)
    {
      var n := SendDapRequest(command);
      r := TakeFromWire(ResponseTo(n), inTime);
    }

    /** Sends a request and waits on the wire alone for an event. */
    method SendDapRequestAndWaitForEvent(command: string, event: string, inTime: nat)
      returns (n: int, r: Option<Message>)
      requires Valid()
      modifies this`read, this`pending, this`seqNo, this`sent, this`kept, this`taken
      ensures Valid() && n == old(seqNo) && seqNo == n + 1
      ensures sent == old(sent) + [Request(n, command)]
      ensures r.Some? ==> r.value.Event? && r.value.event == event
      ensures forall q: nat :: old(read) <= q < (if r.Some? then read - 1 else read) ==>
        !(wire[q].Event? && wire[q].event == event)
      ensures var limit := Min(|wire|, old(read) + inTime);
        match Earliest(wire, [], EventNamed(event), old(read), limit)
        case Some(p) => r == Some(wire[p]) && taken == old(taken) + [p] && read == p + 1
        case None => r == None && taken == old(taken) && read == limit
      ensures Handed() == old(Handed()) + Given(r)
    {
      n := SendDapRequest(command);
      r := TakeFromWire(EventNamed(event), inTime);
    }

    /** The oldest kept message, or else the next one on the wire if `arrives`. */
    method RecvTimeout(arrives: bool) returns (r: Option<Message>)
      requires Valid()
      modifies this`read, this`pending, this`kept, this`taken
      ensures Valid()
      ensures old(pending) != [] ==> old(kept) != [] && r == Some(old(pending)[0]) && pending == old(pending)[1..]
      ensures old(pending) != [] ==> taken == old(taken) + [old(kept)[0]] && read == old(read)
      ensures old(pending) == [] && arrives && old(read) < |wire| ==>
        r == Some(wire[old(read)]) && pending == [] && read == old(read) + 1 && taken == old(taken) + [old(read)]
      ensures old(pending) == [] && !(arrives && old(read) < |wire|) ==>
        r == None && Where() == old(Where()) && pending == []
      ensures Handed() == old(Handed()) + Given(r)
    {
      if pending != [] {
        r := Some(pending[0]);
        RemovalKeepsPartition(kept, taken, read, 0);
        HandedGrows(wire, taken, kept[0]);
        taken := taken + [kept[0]];
        kept := kept[..0] + kept[1..];
        pending := pending[1..];
        return;
      }
      if arrives && read < |wire| {
        r := Some(wire[read]);
        ReadKeepsPartition(kept, taken, read);
        HandedGrows(wire, taken, read);
        taken := taken + [read];
        read := read + 1;
        return;
      }
      r := None;
    }

    /** Everything kept, in order, followed by the next `arriving` messages of the wire. */
    method Drain(arriving: nat) returns (messages: seq<Message>)
      requires Valid()
      modifies this`read, this`pending, this`kept, this`taken
      ensures Valid() && pending == []
      ensures read == Min(|wire|, old(read) + arriving)
      ensures messages == old(pending) + wire[old(read)..read]
      ensures Handed() == old(Handed()) + messages
    {
      messages := [];
      assert Handed() + [] == Handed();
      hide Partition, At, Within;
      while pending != []
        invariant Valid() && read == old(read) && messages + pending == old(pending)
        invariant Handed() == old(Handed()) + messages
        decreases |pending|
      {
        ghost var before := pending;
        var m := RecvTimeout(false);
        messages := messages + [m.value];
        assert before == [before[0]] + before[1..];
      }
      var more := DrainWire(arriving);
      messages := messages + more;
    }

    method DrainWire(arriving: nat) returns (messages: seq<Message>)
      requires Valid() && pending == []
      modifies this`read, this`pending, this`kept, this`taken
      ensures Valid() && pending == []
      ensures read == Min(|wire|, old(read) + arriving)
      ensures messages == wire[old(read)..read]
      ensures Handed() == old(Handed()) + messages
    {
      messages := [];
      assert Handed() + [] == Handed();
      hide Partition, At, Within;
      var left := arriving;
      while left > 0 && read < |wire|
        invariant Valid() && pending == [] && old(read) <= read <= |wire| && read - old(read) == arriving - left
        invariant messages == wire[old(read)..read] && Handed() == old(Handed()) + messages
        decreases left
      {
        var m := RecvTimeout(true);
        messages := messages + [m.value];
        left := left - 1;
      }
    }

    /** What connecting does first: reads the replay, notes the capabilities in it, and puts every
        message back. */
    method AbsorbLateJoinReplay(arriving: nat)
      requires Valid() && taken == []
      modifies this`read, this`pending, this`capabilities, this`kept, this`taken
      ensures Valid() && taken == [] && read == Min(|wire|, old(read) + arriving)
      ensures pending == wire[..read]
      ensures capabilities == Announced(wire[..read]).OrElse(old(capabilities))
      ensures forall k, c :: AnnouncesLast(wire, read, k, c) ==> capabilities == Some(c)
      ensures (forall k, c :: !(0 <= k < read && CarriesCapabilities(wire[k], c))) ==> capabilities == old(capabilities)
    {
      NothingTaken(wire, kept, read);
      hide Partition, At, Within, Announced;
      var messages := DrainFresh(arriving);
      kept, taken := seq(read, i => i), [];
      AllKept(wire, read);
      PutBack(messages);
      assert [] + wire[..read] == wire[..read];
      AnnouncedIsLast(wire, read);
    }

    /** Draining a client that has handed out nothing gives everything it has read. */
    method DrainFresh(arriving: nat) returns (messages: seq<Message>)
      requires Valid() && pending == wire[..read]
      modifies this`read, this`pending, this`kept, this`taken
      ensures old(read) <= read == Min(|wire|, old(read) + arriving)
      ensures pending == [] && messages == wire[..read]
    {
      messages := Drain(arriving);
      assert wire[..old(read)] + wire[old(read)..read] == wire[..read];
    }

    /** Appends messages to what is kept, noting capabilities on the way. */
    method PutBack(messages: seq<Message>)
      modifies this`pending, this`capabilities
      ensures pending == old(pending) + messages
      ensures capabilities == Announced(messages).OrElse(old(capabilities))
    {
      hide Announced;
      NothingAnnounced();
      for i := 0 to |messages|
        invariant pending == old(pending) + messages[..i]
        invariant capabilities == Announced(messages[..i]).OrElse(old(capabilities))
      {
        assert messages[..i + 1] == messages[..i] + [messages[i]];
        AnnouncedNext(messages[..i], messages[i]);
        if Announces(messages[i]).Some? {
          capabilities := Announces(messages[i]);
        }
        pending := pending + [messages[i]];
      }
      assert messages[..|messages|] == messages;
    }
  }

  function Given(r: Option<Message>): seq<Message> {
    if r.Some? then [r.value] else []
  }

  /** The operations that keep what they pass over. */
  datatype Operation =
    | Send(command: string)
    | AwaitSeq(n: int)
    | AwaitNamed(command: string)
    | AwaitEvent(name: string, inTime: nat)
    | Ask(command: string, inTime: nat)
    | AskForEvent(command: string, event: string, inTime: nat)
    | Receive(arrives: bool)
    | DrainAll(arriving: nat)

  method Perform(client: ControlClient, op: Operation) returns (out: seq<Message>)
    requires client.Valid()
    modifies client`read, client`pending, client`seqNo, client`sent, client`kept, client`taken
    ensures client.Valid() && client.Handed() == old(client.Handed()) + out
  {
    var r: Option<Message> := None;
    match op {
      case Send(command) => var n := client.SendDapRequest(command);
      case AwaitSeq(n) => r := client.WaitForResponseSeq(n);
      case AwaitNamed(command) => r := client.WaitForResponseNamed(command);
      case AwaitEvent(name, inTime) => r := client.WaitForEvent(name, inTime);
      case Ask(command, inTime) => r := client.DapRequestPreserveEvents(command, inTime);
      case AskForEvent(command, event, inTime) =>
        var n;
        n, r := client.SendDapRequestAndWaitForEvent(command, event, inTime);
      case Receive(arrives) => r := client.RecvTimeout(arrives);
      case DrainAll(arriving) =>
        out := client.Drain(arriving);
        return;
    }
    out := Given(r);
  }

  /** Any run of such operations on a client that has handed out nothing, be it new or with the
      late-join replay absorbed: what the operations
      returned and what is kept are together, as a multiset, exactly what was read, and what is
      kept is in arrival order. */
  method PerformAll(client: ControlClient, ops: seq<Operation>) returns (out: seq<Message>)
    requires client.Valid() && client.Handed() == []
    modifies client`read, client`pending, client`seqNo, client`sent, client`kept, client`taken
    ensures client.Valid() && client.Handed() == out
    ensures multiset(client.wire[..client.read]) == multiset(client.pending) + multiset(out)
    ensures client.pending == Unconsumed(client.wire, client.taken, client.read)
  {
    out := [];
    for i := 0 to |ops|
      invariant client.Valid() && client.Handed() == out
    {
      var more := Perform(client, ops[i]);
      out := out + more;
    }
    NothingIsLost(client.wire, client.kept, client.taken, client.read);
    PendingIsUnconsumed(client.wire, client.kept, client.taken, client.read);
  }

  /** The capabilities that an `initialize` response carries. */
  function Announces(m: Message): Option<string> {
    if m.Response? && m.name == Some("initialize") && m.body.Some? then m.body.value.capabilities else None
  }

  /** An `initialize` response whose body reads as capabilities `c`. */
  predicate CarriesCapabilities(m: Message, c: string) {
    m.Response? && m.name == Some("initialize") && m.body.Some? && m.body.value.capabilities == Some(c)
  }

  /** Of the first `read` messages, the one at `k` is the last that carries any, and it carries `c`. */
  ghost predicate AnnouncesLast(wire: seq<Message>, read: nat, k: int, c: string) {
    && 0 <= k < read <= |wire| && CarriesCapabilities(wire[k], c)
    && forall j, d :: k < j < read ==> !CarriesCapabilities(wire[j], d)
  }

  lemma AnnouncedIsLast(wire: seq<Message>, read: nat)
    requires read <= |wire|
    ensures forall k, c :: AnnouncesLast(wire, read, k, c) ==> Announced(wire[..read]) == Some(c)
    ensures (forall k, c :: !(0 <= k < read && CarriesCapabilities(wire[k], c))) ==> Announced(wire[..read]) == None
  {
    var messages := wire[..read];
    forall k | 0 <= k < read ensures messages[k] == wire[k] {
    }
    forall k: int, c: string | AnnouncesLast(wire, read, k, c) ensures Announced(messages) == Some(c) {
      LastAnnouncement(messages, k, c);
    }
    if Announced(messages).Some? {
      var k :| 0 <= k < |messages| && Announces(messages[k]) == Announced(messages);
      assert CarriesCapabilities(wire[k], Announced(messages).value);
    }
  }

  lemma LastAnnouncement(messages: seq<Message>, k: int, c: string)
    requires AnnouncesLast(messages, |messages|, k, c)
    ensures Announced(messages) == Some(c)
  {
    assert Announces(messages[k]) == Some(c);
    forall j | k < j < |messages| ensures Announces(messages[j]) == None {
      if Announces(messages[j]).Some? {
        assert CarriesCapabilities(messages[j], Announces(messages[j]).value);
      }
    }
  }

  /** The capabilities announced last. */
  function Announced(messages: seq<Message>): (r: Option<string>)
    ensures r == None ==> forall i :: 0 <= i < |messages| ==> Announces(messages[i]) == None
    ensures r != None ==> exists i :: (0 <= i < |messages| && Announces(messages[i]) == r
      && forall j :: i < j < |messages| ==> Announces(messages[j]) == None)
  {
    if messages == [] then None
    else Announces(messages[|messages| - 1]).OrElse(Announced(messages[..|messages| - 1]))
  }

  // ----- the bookkeeping behind the methods ------------------------------------------------------

  lemma KeptIsEarliest(wire: seq<Message>, kept: seq<nat>, taken: seq<nat>, read: nat, want: Want, index: nat)
    requires Partition(kept, taken, read) && read <= |wire| && index < |kept|
    requires Fits(wire[kept[index]], want) && forall i :: 0 <= i < index ==> !Fits(wire[kept[i]], want)
    ensures Earliest(wire, taken, want, 0, read) == Some(kept[index])
  {
    var p := Earliest(wire, taken, want, 0, read);
    assert kept[index] in kept && kept[index] < read && kept[index] !in taken;
    forall q: nat | q < kept[index] ensures q in taken || !Fits(wire[q], want) {
      if q in kept {
        var i :| 0 <= i < |kept| && kept[i] == q;
        assert i < index;
      }
    }
  }

  lemma NoneKept(wire: seq<Message>, kept: seq<nat>, taken: seq<nat>, read: nat, want: Want)
    requires Partition(kept, taken, read) && read <= |wire|
    requires forall i :: 0 <= i < |kept| ==> !Fits(wire[kept[i]], want)
    ensures Earliest(wire, taken, want, 0, read) == None
  {
    var p := Earliest(wire, taken, want, 0, read);
    assert forall q: nat :: q < read && q in kept ==> !Fits(wire[q], want);
  }

  lemma RemovalKeepsPartition(kept: seq<nat>, taken: seq<nat>, read: nat, index: nat)
    requires Partition(kept, taken, read) && index < |kept|
    ensures Partition(kept[..index] + kept[index + 1..], taken + [kept[index]], read)
  {
    var rest := kept[..index] + kept[index + 1..];
    var p := kept[index];
    assert p in kept;
    assert forall q :: q in rest ==> q in kept && q != p;
    forall q | q in kept && q != p ensures q in rest {
      var i :| 0 <= i < |kept| && kept[i] == q;
      assert rest[if i < index then i else i - 1] == q;
    }
    assert forall q :: q in taken + [p] <==> q in taken || q == p;
    assert forall i :: 0 <= i < |taken| ==> taken[i] in taken;
  }

  /** A message just read goes either way. */
  lemma ReadKeepsPartition(kept: seq<nat>, taken: seq<nat>, read: nat)
    requires Partition(kept, taken, read)
    ensures Partition(kept + [read], taken, read + 1)
    ensures Partition(kept, taken + [read], read + 1)
  {
    assert forall i :: 0 <= i < |kept| ==> kept[i] in kept;
    assert forall i :: 0 <= i < |taken| ==> taken[i] in taken;
    assert forall q :: q in taken + [read] <==> q in taken || q == read;
    assert forall q :: q in kept + [read] <==> q in kept || q == read;
  }

  lemma {:induction false} EarliestSplits(wire: seq<Message>, taken: seq<nat>, want: Want,
                                          from: nat, mid: nat, end: nat)
    requires from <= mid <= end <= |wire|
    ensures Earliest(wire, taken, want, from, end) ==
      var p := Earliest(wire, taken, want, from, mid);
      if p.Some? then p else Earliest(wire, taken, want, mid, end)
    decreases mid - from
  {
    if from < mid {
      EarliestSplits(wire, taken, want, from + 1, mid, end);
    }
  }

  /** Nothing beyond what was read has been handed out. */
  lemma UnreadIsUntaken(wire: seq<Message>, kept: seq<nat>, taken: seq<nat>, read: nat, want: Want, end: nat)
    requires Partition(kept, taken, read) && read <= end <= |wire|
    ensures Earliest(wire, taken, want, read, end) == Earliest(wire, [], want, read, end)
  {
    var p, q := Earliest(wire, taken, want, read, end), Earliest(wire, [], want, read, end);
    assert q.Some? ==> q.value !in taken;
  }

  // ----- nothing is lost -----------------------------------------------------------------------

  lemma AtAppend(wire: seq<Message>, a: seq<nat>, b: seq<nat>)
    requires Within(a, |wire|) && Within(b, |wire|)
    ensures At(wire, a + b) == At(wire, a) + At(wire, b)
  {
  }

  lemma HandedGrows(wire: seq<Message>, taken: seq<nat>, p: nat)
    requires Within(taken, |wire|) && p < |wire|
    ensures At(wire, taken + [p]) == At(wire, taken) + [wire[p]]
  {
  }

  lemma AtWithout(wire: seq<Message>, s: seq<nat>, i: nat)
    requires Within(s, |wire|) && i < |s|
    ensures s[i] < |wire| && At(wire, s)[i] == wire[s[i]]
    ensures Within(s[..i] + s[i + 1..], |wire|)
    ensures At(wire, s[..i] + s[i + 1..]) == At(wire, s)[..i] + At(wire, s)[i + 1..]
  {
  }

  lemma AtRemoval(wire: seq<Message>, s: seq<nat>, i: nat)
    requires Within(s, |wire|) && i < |s|
    ensures multiset(At(wire, s)) == multiset(At(wire, s[..i] + s[i + 1..])) + multiset{wire[s[i]]}
  {
    var a, b := s[..i], s[i + 1..];
    AtAppend(wire, a, b);
    AtAppend(wire, a, [s[i]]);
    AtAppend(wire, a + [s[i]], b);
    assert s == a + [s[i]] + b;
    assert At(wire, [s[i]]) == [wire[s[i]]];
  }

  /** In every reachable state, the messages read so far are, as a multiset, exactly those handed
      out plus those pending. */
  lemma {:induction false} NothingIsLost(wire: seq<Message>, kept: seq<nat>, taken: seq<nat>, read: nat)
    requires Partition(kept, taken, read) && read <= |wire|
    ensures multiset(wire[..read]) == multiset(At(wire, kept)) + multiset(At(wire, taken))
    decreases read
  {
    hide Partition, Within, At;
    if read == 0 {
      NothingRead(wire, kept, taken);
    } else {
      assert wire[..read] == wire[..read - 1] + [wire[read - 1]];
      var i := WhereLast(kept, taken, read);
      if i.Some? {
        WithoutLast(kept, taken, read, i.value);
        InBounds(wire, kept, taken, read);
        AtRemoval(wire, taken, i.value);
        NothingIsLost(wire, kept, taken[..i.value] + taken[i.value + 1..], read - 1);
      } else {
        LastIsLast(kept, taken, read);
        InBounds(wire, kept, taken, read);
        AtRemoval(wire, kept, |kept| - 1);
        assert kept[..|kept| - 1] + kept[|kept|..] == kept[..|kept| - 1];
        NothingIsLost(wire, kept[..|kept| - 1], taken, read - 1);
      }
    }
  }

  lemma InBounds(wire: seq<Message>, kept: seq<nat>, taken: seq<nat>, read: nat)
    requires Partition(kept, taken, read) && read <= |wire|
    ensures Within(kept, |wire|) && Within(taken, |wire|)
  {
  }

  lemma NothingRead(wire: seq<Message>, kept: seq<nat>, taken: seq<nat>)
    requires Partition(kept, taken, 0)
    ensures At(wire, kept) == [] && At(wire, taken) == []
  {
    SomethingWithin(kept, 0);
    SomethingWithin(taken, 0);
  }

  lemma SomethingWithin(s: seq<nat>, bound: nat)
    ensures s != [] && Within(s, bound) ==> bound > 0
  {
    if s != [] && Within(s, bound) {
      assert s[0] < bound;
    }
  }

  /** The last message read is either handed out, at a known place, or kept. */
  lemma WhereLast(kept: seq<nat>, taken: seq<nat>, read: nat) returns (i: Option<nat>)
    requires Partition(kept, taken, read) && read > 0
    ensures i.Some? ==> i.value < |taken| && taken[i.value] == read - 1 && read - 1 in taken
    ensures i.None? ==> read - 1 in kept && read - 1 !in taken
  {
    if read - 1 in taken {
      var j :| 0 <= j < |taken| && taken[j] == read - 1;
      i := Some(j);
    } else {
      i := None;
    }
  }

  /** What is pending is determined: the messages read and not handed out, in arrival order. */
  ghost function Unconsumed(wire: seq<Message>, taken: seq<nat>, read: nat): seq<Message>
    requires read <= |wire|
  {
    if read == 0 then []
    else Unconsumed(wire, taken, read - 1) + if read - 1 in taken then [] else [wire[read - 1]]
  }

  lemma {:induction false} PendingIsUnconsumed(wire: seq<Message>, kept: seq<nat>, taken: seq<nat>, read: nat)
    requires Partition(kept, taken, read) && read <= |wire|
    ensures At(wire, kept) == Unconsumed(wire, taken, read)
    decreases read
  {
    hide Partition, Within, At, Unconsumed;
    UnconsumedGrows(wire, taken, read);
    if read == 0 {
      NothingRead(wire, kept, taken);
    } else {
      var i := WhereLast(kept, taken, read);
      InBounds(wire, kept, taken, read);
      if i.Some? {
        var rest := taken[..i.value] + taken[i.value + 1..];
        WithoutLast(kept, taken, read, i.value);
        PendingIsUnconsumed(wire, kept, rest, read - 1);
        WithoutIrrelevant(wire, taken, i.value, read - 1);
      } else {
        LastIsLast(kept, taken, read);
        PendingIsUnconsumed(wire, kept[..|kept| - 1], taken, read - 1);
        AtLast(wire, kept);
      }
    }
  }

  lemma UnconsumedGrows(wire: seq<Message>, taken: seq<nat>, read: nat)
    requires read <= |wire|
    ensures read == 0 ==> Unconsumed(wire, taken, read) == []
    ensures read > 0 && read - 1 in taken ==> Unconsumed(wire, taken, read) == Unconsumed(wire, taken, read - 1)
    ensures read > 0 && read - 1 !in taken ==>
      Unconsumed(wire, taken, read) == Unconsumed(wire, taken, read - 1) + [wire[read - 1]]
  {
  }

  lemma AtLast(wire: seq<Message>, s: seq<nat>)
    requires Within(s, |wire|) && s != []
    ensures At(wire, s) == At(wire, s[..|s| - 1]) + [wire[s[|s| - 1]]]
  {
  }

  lemma {:induction false} WithoutIrrelevant(wire: seq<Message>, taken: seq<nat>, i: nat, read: nat)
    requires i < |taken| && read <= taken[i] && read <= |wire|
    ensures Unconsumed(wire, taken[..i] + taken[i + 1..], read) == Unconsumed(wire, taken, read)
    decreases read
  {
    if read > 0 {
      WithoutIrrelevant(wire, taken, i, read - 1);
      assert taken == taken[..i] + [taken[i]] + taken[i + 1..];
    }
  }

  /** A client that keeps everything it has read. */
  lemma AllKept(wire: seq<Message>, read: nat)
    requires read <= |wire|
    ensures Partition(seq(read, i => i), [], read) && At(wire, seq(read, i => i)) == wire[..read]
  {
    var kept := seq(read, i => i);
    forall p: nat | p < read ensures p in kept {
      assert kept[p] == p;
    }
  }

  lemma NothingAnnounced()
    ensures Announced([]) == None
  {
  }

  lemma AnnouncedNext(messages: seq<Message>, m: Message)
    ensures Announced(messages + [m]) == Announces(m).OrElse(Announced(messages))
  {
    assert (messages + [m])[..|messages|] == messages;
  }

  /** With nothing handed out, everything read is pending. */
  lemma NothingTaken(wire: seq<Message>, kept: seq<nat>, read: nat)
    requires Partition(kept, [], read) && read <= |wire|
    ensures At(wire, kept) == wire[..read]
  {
    PendingIsUnconsumed(wire, kept, [], read);
    AllUnconsumed(wire, read);
  }

  lemma {:induction false} AllUnconsumed(wire: seq<Message>, read: nat)
    requires read <= |wire|
    ensures Unconsumed(wire, [], read) == wire[..read]
  {
    if read > 0 {
      AllUnconsumed(wire, read - 1);
    }
  }

  lemma LastIsLast(kept: seq<nat>, taken: seq<nat>, read: nat)
    requires Partition(kept, taken, read) && read > 0 && read - 1 in kept
    ensures kept != [] && kept[|kept| - 1] == read - 1
    ensures Partition(kept[..|kept| - 1], taken, read - 1)
  {
    var last := read - 1;
    var i :| 0 <= i < |kept| && kept[i] == last;
    assert kept[|kept| - 1] in kept;
    var shorter := kept[..|kept| - 1];
    forall p | p in shorter ensures p in kept && p < last {
      var j :| 0 <= j < |shorter| && shorter[j] == p;
      assert kept[j] < kept[|kept| - 1];
    }
    assert last !in taken;
    forall p: nat | p < last && p in kept ensures p in shorter {
      var j :| 0 <= j < |kept| && kept[j] == p;
      assert shorter[j] == p;
    }
    forall p | p in taken ensures p < last {
      assert p != last;
    }
  }

  lemma WithoutLast(kept: seq<nat>, taken: seq<nat>, read: nat, i: nat)
    requires Partition(kept, taken, read) && read > 0 && i < |taken| && taken[i] == read - 1
    ensures Partition(kept, taken[..i] + taken[i + 1..], read - 1)
  {
    var last, rest := read - 1, taken[..i] + taken[i + 1..];
    assert last in taken;
    forall p | p in rest ensures p in taken && p != last {
      var j :| 0 <= j < |rest| && rest[j] == p;
      assert taken[if j < i then j else j + 1] == p;
    }
    forall p | p in taken && p != last ensures p in rest {
      var j :| 0 <= j < |taken| && taken[j] == p;
      assert rest[if j < i then j else j - 1] == p;
    }
    forall a, b | 0 <= a < |rest| && 0 <= b < |rest| && rest[a] == rest[b] ensures a == b {
      assert taken[if a < i then a else a + 1] == taken[if b < i then b else b + 1];
    }
  }
}
