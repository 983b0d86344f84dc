/** `MessageRemapper`: the editor's request numbers against the upstream ones. */
module Remapper {
  import opened Wrappers

  /** Sequence number chosen by a client. */
  datatype ClientSeq = ClientSeq(raw: int)

  /** Sequence number on the upstream connection. */
  datatype BackendSeq = BackendSeq(raw: int)

  class MessageRemapper {
    var forward: map<ClientSeq, BackendSeq>
    var reverse: map<BackendSeq, ClientSeq>

    constructor ()
      ensures forward == map[] && reverse == map[]
    {
      forward, reverse := map[], map[];
    }

    /** What every reachable remapper satisfies: `forward` never disagrees with `reverse`. */
    ghost predicate Consistent()
      reads this
    {
      forall c :: c in forward ==> forward[c] in reverse && reverse[forward[c]] == c
    }

    /** Fully invertible: each table is the inverse of the other. */
    ghost predicate Inverse()
      reads this
    {
      Consistent() && forall b :: b in reverse ==> reverse[b] in forward && forward[reverse[b]] == b
    }

    method Map(clientSeq: ClientSeq, backendSeq: BackendSeq)
      modifies this
      ensures forward == old(forward)[clientSeq := backendSeq]
      ensures reverse == old(reverse)[backendSeq := clientSeq]
      ensures old(Consistent()) && backendSeq !in old(reverse) ==> Consistent()
      ensures old(Inverse()) && backendSeq !in old(reverse) && clientSeq !in old(forward) ==> Inverse()
    {
      forward := forward[clientSeq := backendSeq];
      reverse := reverse[backendSeq := clientSeq];
    }

    method Unmap(backendSeq: BackendSeq) returns (clientSeq: Option<ClientSeq>)
      modifies this
      ensures backendSeq !in old(reverse) ==>
        clientSeq == None && forward == old(forward) && reverse == old(reverse)
      ensures backendSeq in old(reverse) ==>
        && clientSeq == Some(old(reverse)[backendSeq])
        && reverse == old(reverse) - {backendSeq}
        && forward == old(forward) - {old(reverse)[backendSeq]}
      ensures old(Consistent()) ==> Consistent()
      ensures old(Inverse()) ==> Inverse()
    {
      if backendSeq !in reverse {
        return None;
      }
      var c := reverse[backendSeq];
      reverse := reverse - {backendSeq};
      forward := forward - {c};
      return Some(c);
    }

    /** The upstream number of a client number.  It maps back to that client number, and in an
        invertible remapper it is the only one that does. */
    method LookupBackend(clientSeq: ClientSeq) returns (r: Option<BackendSeq>)
      ensures r == if clientSeq in forward then Some(forward[clientSeq]) else None
      ensures Consistent() && r.Some? ==> r.value in reverse && reverse[r.value] == clientSeq
      ensures Inverse() ==> forall b :: b in reverse && reverse[b] == clientSeq ==> r == Some(b)
    {
      r := if clientSeq in forward then Some(forward[clientSeq]) else None;
    }

    /** The client number of an upstream number.  It undoes `LookupBackend`; in an invertible
        remapper `LookupBackend` also undoes it. */
    method LookupClient(backendSeq: BackendSeq) returns (r: Option<ClientSeq>)
      ensures r == if backendSeq in reverse then Some(reverse[backendSeq]) else None
      ensures Consistent() ==> forall c :: c in forward && forward[c] == backendSeq ==> r == Some(c)
      ensures Inverse() && r.Some? ==> r.value in forward && forward[r.value] == backendSeq
    {
      r := if backendSeq in reverse then Some(reverse[backendSeq]) else None;
    }
  }
}
