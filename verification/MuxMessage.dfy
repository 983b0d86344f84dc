/** The JSON envelopes the multiplexer reads and rewrites, reduced to the members
    its code looks at.  `rest` stands for all members it only copies. */
module MuxMessage {
  import opened Wrappers

  datatype Kind = Request | Response | Event | Unknown

  /** An entry of a `breakpoints` array or the `breakpoint` of an event. */
  datatype Breakpoint = Breakpoint(
    id: Option<int>,
    path: Option<string>,
    line: Option<int>,
    verified: Option<bool>,
    condition: Field<string>,
    hitCondition: Field<string>,
    logMessage: Field<string>)

  datatype SourceSpec = SourceSpec(
    line: int,
    condition: Option<string>,
    hitCondition: Option<string>,
    logMessage: Option<string>)

  datatype ExceptionSpec = ExceptionSpec(filter: string, condition: Option<string>)

  datatype FilterOption = FilterOption(filterId: Option<string>, condition: Option<string>)

  datatype Arguments = Arguments(
    requestId: Option<int>,
    sourcePath: Option<string>,
    breakpoints: Option<seq<Breakpoint>>,
    filters: Option<seq<Option<string>>>,
    filterOptions: Option<seq<FilterOption>>,
    rest: string)

  /** A `body` member.  `Snapshot` is the one the multiplexer builds itself. */
  datatype Body =
    | Body(
        reason: Option<string>,
        threadId: Option<int>,
        text: Option<string>,
        breakpoint: Option<Breakpoint>,
        breakpoints: Option<seq<Breakpoint>>,
        rest: string)
    | Snapshot(files: map<string, seq<SourceSpec>>, exceptions: seq<ExceptionSpec>)
  {
    function Reason(): Option<string> { if Body? then reason else None }

    function ThreadId(): Option<int> { if Body? then threadId else None }

    function Text(): Option<string> { if Body? then text else None }

    function EventBreakpoint(): Option<Breakpoint> { if Body? then breakpoint else None }

    function ResponseBreakpoints(): Option<seq<Breakpoint>> { if Body? then breakpoints else None }
  }

  /** `camel` and `snake` are the two spellings of the number a response refers to. */
  datatype Message = Message(
    kind: Kind,
    seqNo: Option<int>,
    camel: Field<int>,
    snake: Field<int>,
    command: Option<string>,
    success: Option<bool>,
    event: Option<string>,
    arguments: Option<Arguments>,
    body: Option<Body>)
  {
    /** The number used for routing: `requestSeq` wins over `request_seq`. */
    function RequestSeq(): Option<int> {
      camel.Else(snake).ToOption()
    }

    /** The number used for breakpoint attribution: `request_seq` wins, and 0 stands for none. */
    function AttributionSeq(): int {
      snake.Else(camel).ToOption().GetOr(0)
    }

    function WithSeq(n: int): Message {
      this.(seqNo := Some(n))
    }

    function WithRequestSeq(n: int): Message {
      this.(camel := Absent, snake := Is(n))
    }

    predicate IsEvent(name: string) {
      kind == Event && event == Some(name)
    }

    predicate Answers(n: int) {
      kind == Response && RequestSeq() == Some(n)
    }

    predicate IsCommand(name: string) {
      command == Some(name)
    }

    /** What a `cancel` request refers to, when it names an integer. */
    function CancelRequestId(): Option<int> {
      if IsCommand("cancel") && arguments.Some? then arguments.value.requestId else None
    }

    function WithCancelRequestId(n: int): Message
      requires arguments.Some?
    {
      this.(arguments := Some(arguments.value.(requestId := Some(n))))
    }
  }

  /** A successful response built by the multiplexer itself. */
  function LocalResponse(seqNo: int, requestSeq: int, command: Option<string>, body: Body): Message {
    Message(Response, Some(seqNo), Absent, Is(requestSeq), command, Some(true), None, None, Some(body))
  }
}
