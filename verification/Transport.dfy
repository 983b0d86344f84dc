/** Content-Length framing (Debug Adapter Protocol, "Base protocol": header part and content
    part).  A stream is a string in which each character stands for one byte.  What turns a body
    into a message and back, JSON in the original, is a parameter. */
module Transport {
  import opened Wrappers
  import opened Radix
  import opened Ascii

  const HEADER := "Content-Length:"
  const CRLF := "\r\n"
  const USIZE_MAX := U64_MAX

  datatype ProtocolError =
    | UnexpectedEof
    | BadContentLength
    | InvalidHeader
    | MissingContentLength
    | TruncatedBody
    | BadBody

  /** One attempt to read a frame: the body and what is left of the stream, a clean end of stream,
      or an error. */
  datatype Decoded = Message(body: string, rest: string) | EndOfStream | Failed(error: ProtocolError)

  /** Bytes up to and including the first newline, or all of them. */
  function LineLength(s: string): (n: nat)
    ensures n <= |s| && (s != "" ==> n > 0)
    ensures forall i :: 0 <= i < n - 1 ==> s[i] != '\n'
    ensures n < |s| ==> s[n - 1] == '\n'
  {
    if s == "" then 0 else if s[0] == '\n' then 1 else 1 + LineLength(s[1..])
  }

  function TrimEol(s: string): string {
    if s != "" && (s[|s| - 1] == '\r' || s[|s| - 1] == '\n') then TrimEol(s[..|s| - 1]) else s
  }

  function ParseLength(trimmed: string): Option<nat>
    requires HEADER <= trimmed
  {
    ParseUnsigned(Trim(trimmed[|HEADER|..]), 10, USIZE_MAX)
  }

  /** Taking the body, once the empty line has been read. */
  function DecodeBody(s: string, length: Option<nat>): Decoded {
    if length.None? then Failed(MissingContentLength)
    else if |s| < length.value then Failed(TruncatedBody)
    else Message(s[..length.value], s[length.value..])
  }

  /** Decoding, given the length announced so far and whether any header was seen. */
  function DecodeHeaders(s: string, length: Option<nat>, sawHeader: bool): Decoded
    decreases |s|
  {
    if s == "" then (if sawHeader then Failed(UnexpectedEof) else EndOfStream)
    else
      var n := LineLength(s);
      var trimmed, rest := TrimEol(s[..n]), s[n..];
      if trimmed == "" then DecodeBody(rest, length)
      else if HEADER <= trimmed then
        if ParseLength(trimmed).None? then Failed(BadContentLength)
        else DecodeHeaders(rest, ParseLength(trimmed), true)
      else Failed(InvalidHeader)
  }

  function Decode(s: string): Decoded {
    DecodeHeaders(s, None, false)
  }

  /** One attempt to read a message: `None` at a clean end of stream. */
  function Received<M>(s: string, parse: string -> Option<M>): Result<Option<M>, ProtocolError> {
    match Decode(s)
    case EndOfStream => Ok(None)
    case Failed(error) => Err(error)
    case Message(body, _) => if parse(body).Some? then Ok(parse(body)) else Err(BadBody)
  }

  /** The header line of a body, without its line end. */
  function HeaderLine(body: string): string {
    HEADER + " " + Print(|body|, 10)
  }

  function Frame(body: string): string {
    HeaderLine(body) + CRLF + CRLF + body
  }

  // ----- reader and writer ------------------------------------------------------------------

  class Reader {
    const stream: string
    var pos: nat

    ghost predicate Valid()
      reads this
    {
      pos <= |stream|
    }

    ghost function Left(): string
      requires Valid()
      reads this
    {
      stream[pos..]
    }

    constructor (stream: string)
      ensures Valid() && Left() == stream
    {
      this.stream, pos := stream, 0;
    }

    method ReadLine() returns (line: string)
      requires Valid()
      modifies this
      ensures Valid()
      ensures line == old(Left())[..LineLength(old(Left()))]
      ensures Left() == old(Left())[LineLength(old(Left()))..]
    {
      var n := LineLength(stream[pos..]);
      line := stream[pos..][..n];
      pos := pos + n;
    }

    method ReadExact(n: nat) returns (r: Option<string>)
      requires Valid()
      modifies this
      ensures Valid()
      ensures |old(Left())| < n ==> r == None
      ensures |old(Left())| >= n ==> r == Some(old(Left())[..n]) && Left() == old(Left())[n..]
    {
      if |stream| - pos < n {
        pos := |stream|;
        return None;
      }
      r := Some(stream[pos..][..n]);
      pos := pos + n;
    }

    /** Reads one message.  Whenever a whole frame was there, exactly that frame has been consumed,
        even if its body is no message. */
    method ReadMessage<M>(parse: string -> Option<M>) returns (r: Result<Option<M>, ProtocolError>)
      requires Valid()
      modifies this
      ensures Valid()
      ensures r == Received(old(Left()), parse)
      ensures Decode(old(Left())).EndOfStream? ==> Left() == ""
      ensures Decode(old(Left())).Message? ==> Left() == Decode(old(Left())).rest
    {
      var contentLength: Option<nat> := None;
      var sawHeader := false;
      var inHeaders := true;
      while inHeaders
        invariant Valid()
        invariant inHeaders ==> Decode(old(Left())) == DecodeHeaders(Left(), contentLength, sawHeader)
        invariant !inHeaders ==> Decode(old(Left())) == DecodeBody(Left(), contentLength)
        decreases inHeaders, |stream| - pos
      {
        var line := ReadLine();
        if line == "" {
          if !sawHeader {
            return Ok(None);
          }
          return Err(UnexpectedEof);
        }
        var trimmed := TrimEol(line);
        if trimmed == "" {
          inHeaders := false;
        } else if HEADER <= trimmed {
          sawHeader := true;
          var length := ParseLength(trimmed);
          if length.None? {
            return Err(BadContentLength);
          }
          contentLength := length;
        } else {
          return Err(InvalidHeader);
        }
      }
      if contentLength.None? {
        return Err(MissingContentLength);
      }
      var body := ReadExact(contentLength.value);
      match body {
        case Some(bytes) =>
          var message := parse(bytes);
          if message.None? {
            return Err(BadBody);
          }
          return Ok(message);
        case None => return Err(TruncatedBody);
      }
    }
  }

  class Writer {
    var written: string

    constructor ()
      ensures written == ""
    {
      written := "";
    }

    method WriteMessage<M>(message: M, encode: M -> string)
      modifies this
      ensures written == old(written) + Frame(encode(message))
    {
      var body := encode(message);
      var header := HEADER + " " + Print(|body|, 10) + CRLF + CRLF;
      written := written + header;
      written := written + body;
      assert old(written) + header + body == old(written) + (header + body);
    }
  }

  // ----- round trip ---------------------------------------------------------------------------

  lemma {:induction false} LineEndsAt(s: string, k: nat)
    requires k < |s| && s[k] == '\n' && forall i :: 0 <= i < k ==> s[i] != '\n'
    ensures LineLength(s) == k + 1
  {
    if k > 0 {
      LineEndsAt(s[1..], k - 1);
    }
  }

  lemma {:induction false} WholeLine(s: string)
    requires forall i :: 0 <= i < |s| ==> s[i] != '\n'
    ensures LineLength(s) == |s|
  {
    if s != "" {
      WholeLine(s[1..]);
    }
  }

  lemma DigitIsPlain(c: char)
    requires DigitValue(c, 10).Some?
    ensures c != '\r' && c != '\n' && !IsWhitespace(c)
  {
  }

  /** Line ends are trimmed, and nothing before them. */
  lemma TrimsLineEnd(line: string, end: string)
    requires line == "" || (line[|line| - 1] != '\r' && line[|line| - 1] != '\n')
    requires end in {"", "\r", "\r\n"}
    ensures TrimEol(line + end) == line
  {
    assert TrimEol(line) == line;
    if end == "" {
      assert line + "" == line;
    } else {
      assert (line + "\r")[..|line|] == line;
      assert TrimEol(line + "\r") == TrimEol(line);
      if end == "\r\n" {
        assert (line + end)[..|line| + 1] == line + "\r";
        assert TrimEol(line + end) == TrimEol(line + "\r");
      }
    }
  }

  lemma TrimsNumber(digits: string)
    requires digits != "" && IsDigits(digits, 10)
    ensures Trim(" " + digits) == digits
  {
    DigitIsPlain(digits[0]);
    DigitIsPlain(digits[|digits| - 1]);
    assert (" " + digits)[1..] == digits;
    assert TrimStart(digits) == digits && TrimEnd(digits) == digits;
    assert TrimStart(" " + digits) == TrimStart(digits);
  }

  /** A header line, ended by any of the line ends, announces the body's length. */
  lemma HeaderLineParses(body: string, end: string)
    requires |body| <= USIZE_MAX && end in {"", "\r", "\r\n"}
    ensures var line := HeaderLine(body);
      && (forall i :: 0 <= i < |line| ==> line[i] != '\n')
      && TrimEol(line + end) == line
      && HEADER <= line && ParseLength(line) == Some(|body|)
  {
    hide TrimEol, Trim, Print, PrintPadded, ParseUnsigned;
    var digits, line := Print(|body|, 10), HeaderLine(body);
    ParsePrinted(|body|, 10, 0, USIZE_MAX);
    PrintsDigits(|body|, 10);
    forall i | 0 <= i < |digits| ensures digits[i] != '\n' && digits[i] != '\r' {
      DigitIsPlain(digits[i]);
    }
    TrimsLineEnd(line, end);
    TrimsNumber(digits);
    assert line[|HEADER|..] == " " + digits;
  }

  /** After its header line, a frame continues with the announced length known. */
  lemma HeaderIsConsumed(body: string, rest: string)
    requires |body| <= USIZE_MAX
    ensures Decode(HeaderLine(body) + CRLF + rest) == DecodeHeaders(rest, Some(|body|), true)
  {
    var line := HeaderLine(body);
    var s := line + CRLF + rest;
    HeaderLineParses(body, CRLF);
    LineEndsAt(s, |line| + 1);
    assert s[..|line| + 2] == line + CRLF && s[|line| + 2..] == rest;
  }

  /** The empty line ends the headers; the body follows. */
  lemma BlankLineIsConsumed(n: nat, rest: string)
    ensures DecodeHeaders(CRLF + rest, Some(n), true) == DecodeBody(rest, Some(n))
  {
    hide TrimEol, LineLength, ParseLength, DecodeBody;
    var s := CRLF + rest;
    LineEndsAt(s, 1);
    assert s[..2] == CRLF && s[2..] == rest;
    TrimsLineEnd("", CRLF);
    assert "" + CRLF == CRLF;
  }

  /** Decoding a frame gives back its body and consumes exactly the frame. */
  lemma DecodeFrame(body: string, rest: string)
    requires |body| <= USIZE_MAX
    ensures Decode(Frame(body) + rest) == Message(body, rest)
  {
    var line := HeaderLine(body);
    assert Frame(body) + rest == line + CRLF + (CRLF + (body + rest));
    HeaderIsConsumed(body, CRLF + (body + rest));
    BlankLineIsConsumed(|body|, body + rest);
  }

  /** The text of a frame: the header with the number of bytes in decimal, an empty line, the body. */
  lemma FrameText(body: string) returns (digits: string)
    ensures Frame(body) == "Content-Length: " + digits + "\r\n\r\n" + body
    ensures IsDigits(digits, 10) && Value(digits, 10) == Some(|body|)
  {
    hide Print, Value, DigitValue;
    digits := Print(|body|, 10);
    PrintThenValue(|body|, 10);
    PrintsDigits(|body|, 10);
    var header, blank := HEADER + " ", CRLF + CRLF;
    assert header == "Content-Length: " && blank == "\r\n\r\n";
    assert Frame(body) == header + digits + blank + body;
  }

  lemma FrameExample()
    ensures Frame("{}") == "Content-Length: 2\r\n\r\n{}"
  {
    assert Print(2, 10) == "2";
  }

  /** A line that is neither empty nor a length header is refused. */
  lemma StrangeHeaderFails(line: string, end: string, rest: string)
    requires '\n' !in line && line != "" && line[|line| - 1] != '\r' && !("Content-Length:" <= line)
    requires end in {"\n", "\r\n"}
    ensures Decode(line + end + rest) == Failed(InvalidHeader)
  {
    OneHeaderLine(line, end, rest);
  }

  /** Without a length header there is no message. */
  lemma MissingHeaderFails(end: string, rest: string)
    requires end in {"\n", "\r\n"}
    ensures Decode(end + rest) == Failed(MissingContentLength)
  {
    OneHeaderLine("", end, rest);
    assert "" + end + rest == end + rest;
  }

  /** Of several length headers the last one counts. */
  lemma LastHeaderCounts(other: string, body: string, rest: string)
    requires |other| <= USIZE_MAX && |body| <= USIZE_MAX
    ensures Decode(HeaderLine(other) + CRLF + (Frame(body) + rest)) == Message(body, rest)
  {
    hide Print, ParseLength, Trim;
    HeaderIsConsumed(other, Frame(body) + rest);
    var line := HeaderLine(body);
    HeaderLineParses(body, CRLF);
    assert Frame(body) + rest == line + CRLF + (CRLF + (body + rest));
    LineEndsAt(Frame(body) + rest, |line| + 1);
    assert (Frame(body) + rest)[..|line| + 2] == line + CRLF;
    assert (Frame(body) + rest)[|line| + 2..] == CRLF + (body + rest);
    BlankLineIsConsumed(|body|, body + rest);
  }

  lemma OneHeaderLine(line: string, end: string, rest: string)
    requires '\n' !in line && (line == "" || line[|line| - 1] != '\r') && end in {"\n", "\r\n"}
    ensures var s := line + end + rest;
      s != "" && TrimEol(s[..LineLength(s)]) == line && s[LineLength(s)..] == rest
  {
    var s := line + end + rest;
    LineEndsAt(s, |line| + |end| - 1);
    assert s[..|line| + |end|] == line + end && s[|line| + |end|..] == rest;
    TrimsAnyEnd(line, end);
  }

  lemma TrimsAnyEnd(line: string, end: string)
    requires line == "" || (line[|line| - 1] != '\r' && line[|line| - 1] != '\n')
    requires end in {"\n", "\r\n"}
    ensures TrimEol(line + end) == line
  {
    if end == "\r\n" {
      TrimsLineEnd(line, end);
    } else {
      TrimsLineEnd(line, "");
      assert line + "" == line && (line + end)[..|line|] == line;
    }
  }

  function Frames(bodies: seq<string>): string {
    if bodies == [] then "" else Frame(bodies[0]) + Frames(bodies[1..])
  }

  /** All messages of a stream, and how it ends. */
  function DecodeAll(s: string): (seq<string>, Decoded)
    decreases |s|
  {
    match Decode(s)
    case Message(body, rest) =>
      if |rest| < |s| then
        var (bodies, end) := DecodeAll(rest);
        ([body] + bodies, end)
      else ([], Decode(s))
    case other => ([], other)
  }

  /** Decoding makes progress, so the guard in `DecodeAll` is never the reason it stops. */
  lemma {:induction false} DecodeConsumes(s: string, length: Option<nat>, sawHeader: bool)
    ensures var d := DecodeHeaders(s, length, sawHeader); d.Message? ==> |d.rest| < |s|
    decreases |s|
  {
    if s != "" {
      var n := LineLength(s);
      var trimmed := TrimEol(s[..n]);
      if trimmed != "" && HEADER <= trimmed && ParseLength(trimmed).Some? {
        DecodeConsumes(s[n..], ParseLength(trimmed), true);
      }
    }
  }

  /** Whatever was written is read back: the same bodies, in order, then a clean end of stream. */
  lemma {:induction false} StreamRoundTrip(bodies: seq<string>)
    requires forall b :: b in bodies ==> |b| <= USIZE_MAX
    ensures DecodeAll(Frames(bodies)) == (bodies, EndOfStream)
    decreases |bodies|
  {
    if bodies != [] {
      var s, rest := Frames(bodies), Frames(bodies[1..]);
      DecodeFrame(bodies[0], rest);
      StreamRoundTrip(bodies[1..]);
      assert [bodies[0]] + bodies[1..] == bodies;
    }
  }

  function Written<M>(messages: seq<M>, encode: M -> string): string {
    if messages == [] then "" else Frame(encode(messages[0])) + Written(messages[1..], encode)
  }

  /** All messages of a stream, and the error that ends it, if any. */
  function ReceivedAll<M>(s: string, parse: string -> Option<M>): (seq<M>, Option<ProtocolError>)
    decreases |s|
  {
    match Received(s, parse)
    case Err(error) => ([], Some(error))
    case Ok(None) => ([], None)
    case Ok(Some(m)) =>
      DecodeConsumes(s, None, false);
      var (messages, error) := ReceivedAll(Decode(s).rest, parse);
      ([m] + messages, error)
  }

  /** For any printer and parser that undo each other on these messages: what was written is
      received, in order, and the stream ends cleanly. */
  lemma {:induction false} MessagesRoundTrip<M>(messages: seq<M>, encode: M -> string, parse: string -> Option<M>)
    requires forall m :: m in messages ==> parse(encode(m)) == Some(m) && |encode(m)| <= USIZE_MAX
    ensures ReceivedAll(Written(messages, encode), parse) == (messages, None)
    decreases |messages|
  {
    if messages != [] {
      DecodeFrame(encode(messages[0]), Written(messages[1..], encode));
      MessagesRoundTrip(messages[1..], encode, parse);
      assert [messages[0]] + messages[1..] == messages;
    }
  }

  // ----- truncated streams ----------------------------------------------------------------------

  lemma UnfinishedLineFails(s: string)
    requires s != "" && forall i :: 0 <= i < |s| ==> s[i] != '\n'
    ensures Decode(s).Failed?
  {
    WholeLine(s);
    assert s[..|s|] == s && s[|s|..] == "";
    assert HEADER <= TrimEol(s) ==> DecodeHeaders("", ParseLength(TrimEol(s)), true).Failed?;
  }

  /** A frame cut short: before the first byte it is a clean end of stream; with an empty body it
      may lose its very last byte; cut anywhere else it is an error. */
  lemma CutFrame(body: string, k: nat)
    requires |body| <= USIZE_MAX && k < |Frame(body)|
    ensures k == 0 ==> Decode(Frame(body)[..k]) == EndOfStream
    ensures k > 0 && (body != "" || k < |Frame(body)| - 1) ==> Decode(Frame(body)[..k]).Failed?
    ensures body == "" && k == |Frame(body)| - 1 ==> Decode(Frame(body)[..k]) == Message("", "")
  {
    var line, frame := HeaderLine(body), Frame(body);
    var cut := frame[..k];
    HeaderLineParses(body, "");
    if 0 < k <= |line| + 1 {
      assert forall i :: 0 <= i < |cut| ==> cut[i] == (line + "\r")[i];
      UnfinishedLineFails(cut);
    } else if k > |line| + 1 {
      var tail := (CRLF + body)[..k - |line| - 2];
      assert frame == line + CRLF + (CRLF + body);
      assert cut == line + CRLF + tail;
      HeaderIsConsumed(body, tail);
      if |tail| == 1 {
        assert tail == "\r";
        WholeLine(tail);
        assert tail[..1] == tail && tail[1..] == "" && tail[..0] == "";
        assert TrimEol(tail) == "";
      } else if |tail| > 1 {
        assert tail == CRLF + tail[2..];
        BlankLineIsConsumed(|body|, tail[2..]);
      }
    }
  }

  /** Framing alone detects a cut everywhere but at one place. */
  lemma CutIsReadExactly(body: string, k: nat)
    requires |body| <= USIZE_MAX && k < |Frame(body)|
    ensures Decode(Frame(body)[..k]).Message? <==> body == "" && k == |Frame(body)| - 1
  {
    CutFrame(body, k);
  }

  /** Together with a parser that refuses the empty text, as JSON does, every cut is detected. */
  lemma TruncationIsDetected<M>(body: string, k: nat, parse: string -> Option<M>)
    requires |body| <= USIZE_MAX && k < |Frame(body)| && parse("") == None
    ensures k == 0 ==> Received(Frame(body)[..k], parse) == Ok(None)
    ensures k > 0 ==> Received(Frame(body)[..k], parse).Err?
  {
    CutFrame(body, k);
  }
}
