/** Rewriting of `cancel.arguments.requestId` on the editor path. */
module Cancel {
  import opened Wrappers
  import opened MuxMessage
  import opened Remapper

  /** A `cancel` naming a mapped number names the upstream number instead; nothing else changes. */
  function Translated(request: Message, forward: map<ClientSeq, BackendSeq>): Message {
    var referenced := request.CancelRequestId();
    if referenced.Some? && ClientSeq(referenced.value) in forward
    then request.WithCancelRequestId(forward[ClientSeq(referenced.value)].raw)
    else request
  }

  method TranslateCancel(request: Message, remapper: MessageRemapper) returns (out: Message, changed: bool)
    ensures out == Translated(request, remapper.forward)
    ensures changed <==>
      request.CancelRequestId().Some? && ClientSeq(request.CancelRequestId().value) in remapper.forward
  {
    var referenced := request.CancelRequestId();
    if referenced.None? {
      return request, false;
    }
    var backend := remapper.LookupBackend(ClientSeq(referenced.value));
    match backend {
      case Some(b) =>
        out, changed := request.WithCancelRequestId(b.raw), true;
      case None =>
        out, changed := request, false;
    }
  }
}
