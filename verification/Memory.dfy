/** Memory payloads: the hex parser behind writeMemory and the dump behind readMemory, which is
    proved lossless and aligned. */
module Memory {
  import opened Wrappers
  import opened Radix
  import opened Ascii

  type Byte = b: int | 0 <= b < 256

  const MAX_WRITE_BYTES: nat := 0x10_0000
  const TWO_64: nat := 0x1_0000_0000_0000_0000

  // ----- hex input -------------------------------------------------------------------------

  datatype HexError = Empty | OddLength | InvalidByte | TooLong

  function ParseByte(pair: string): Option<Byte> {
    var v := ParseUnsigned(pair, 16, 255);
    if v.Some? then Some(v.value) else None
  }

  function ParsePairs(text: string): Option<seq<Byte>>
    requires |text| % 2 == 0
  {
    if text == "" then Some([])
    else
      var first, rest := ParseByte(text[..2]), ParsePairs(text[2..]);
      if first.None? || rest.None? then None else Some([first.value] + rest.value)
  }

  function HexDecoded(data: string): Result<seq<Byte>, HexError> {
    var text := Trim(data);
    if text == "" then Err(Empty)
    else if |text| % 2 != 0 then Err(OddLength)
    else
      match ParsePairs(text)
      case None => Err(InvalidByte)
      case Some(bytes) => if |bytes| > MAX_WRITE_BYTES then Err(TooLong) else Ok(bytes)
  }

  method HexStringToBytes(data: string) returns (r: Result<seq<Byte>, HexError>)
    ensures r == HexDecoded(data)
  {
    var text := Trim(data);
    if text == "" {
      return Err(Empty);
    }
    if |text| % 2 != 0 {
      return Err(OddLength);
    }
    hide ParseByte, ParsePairs, Behind;
    var out: seq<Byte> := [];
    var idx := 0;
    assert text[0..] == text;
    BehindNothing(ParsePairs(text));
    while idx < |text|
      invariant idx <= |text| && idx % 2 == 0
      invariant ParsePairs(text) == Behind(out, ParsePairs(text[idx..]))
    {
      var left := text[idx..];
      assert left[..2] == text[idx..idx + 2] && left[2..] == text[idx + 2..];
      PairsStep(out, left);
      var byte := ParseByte(text[idx..idx + 2]);
      match byte {
        case None =>
          return Err(InvalidByte);
        case Some(b) =>
          out := out + [b];
      }
      idx := idx + 2;
    }
    assert text[|text|..] == "";
    PairsEnd(out);
    if |out| > MAX_WRITE_BYTES {
      return Err(TooLong);
    }
    return Ok(out);
  }

  /** Bytes already read, in front of those still to come. */
  function Behind(out: seq<Byte>, rest: Option<seq<Byte>>): Option<seq<Byte>> {
    if rest.None? then None else Some(out + rest.value)
  }

  lemma BehindNothing(rest: Option<seq<Byte>>)
    ensures Behind([], rest) == rest
  {
    assert rest.Some? ==> [] + rest.value == rest.value;
  }

  lemma PairsStep(out: seq<Byte>, left: string)
    requires left != "" && |left| % 2 == 0
    ensures var first := ParseByte(left[..2]);
      Behind(out, ParsePairs(left)) ==
        if first.None? then None else Behind(out + [first.value], ParsePairs(left[2..]))
  {
    hide ParseByte;
    var first, rest := ParseByte(left[..2]), ParsePairs(left[2..]);
    if first.Some? && rest.Some? {
      assert out + ([first.value] + rest.value) == out + [first.value] + rest.value;
    }
  }

  lemma PairsEnd(out: seq<Byte>)
    ensures Behind(out, ParsePairs("")) == Some(out)
  {
    assert out + [] == out;
  }

  function Hex2(b: Byte): string {
    PrintPadded(b, 16, 2)
  }

  lemma Hex2IsTwoDigits(b: Byte)
    ensures |Hex2(b)| == 2 && ParseByte(Hex2(b)) == Some(b) && IsDigits(Hex2(b), 16)
  {
    assert Power(16, 2) == 256;
    PaddedWidth(b, 16, 2);
    ParsePrinted(b, 16, 2, 255);
    if |Print(b, 16)| < 2 {
      PrintsDigits(b, 16);
    }
  }

  function HexPrinted(bytes: seq<Byte>): string {
    if bytes == [] then "" else Hex2(bytes[0]) + HexPrinted(bytes[1..])
  }

  lemma {:induction false} PairsRoundTrip(bytes: seq<Byte>)
    ensures |HexPrinted(bytes)| == 2 * |bytes|
    ensures ParsePairs(HexPrinted(bytes)) == Some(bytes)
    ensures forall i :: 0 <= i < |HexPrinted(bytes)| ==> DigitValue(HexPrinted(bytes)[i], 16).Some?
  {
    if bytes != [] {
      Hex2IsTwoDigits(bytes[0]);
      PairsRoundTrip(bytes[1..]);
      var text := HexPrinted(bytes);
      assert text[..2] == Hex2(bytes[0]) && text[2..] == HexPrinted(bytes[1..]);
      assert [bytes[0]] + bytes[1..] == bytes;
    }
  }

  lemma HexDigitIsPlain(c: char)
    requires DigitValue(c, 16).Some?
    ensures !IsWhitespace(c) && c != '\n' && c != ' ' && c != ':'
  {
  }

  lemma HexPrintedIsTrimmed(bytes: seq<Byte>)
    ensures Trim(HexPrinted(bytes)) == HexPrinted(bytes)
  {
    hide HexPrinted, Trim, ParsePairs;
    PairsRoundTrip(bytes);
    var text := HexPrinted(bytes);
    if text != "" {
      HexDigitIsPlain(text[0]);
      HexDigitIsPlain(text[|text| - 1]);
    }
    TrimPlain(text);
  }

  /** Parsing undoes two-digit printing for every payload from 1 to 2^20 bytes, and refuses the
      empty and the longer ones. */
  lemma HexRoundTrip(bytes: seq<Byte>)
    ensures HexDecoded(HexPrinted(bytes)) ==
      if bytes == [] then Err(Empty) else if |bytes| > MAX_WRITE_BYTES then Err(TooLong) else Ok(bytes)
  {
    hide HexPrinted, Trim, ParsePairs;
    PairsRoundTrip(bytes);
    HexPrintedIsTrimmed(bytes);
  }

  /** A pair the parser takes: two hex digits, or a plus sign and one. */
  predicate IsPair(a: char, b: char) {
    (DigitValue(a, 16).Some? || a == '+') && DigitValue(b, 16).Some?
  }

  lemma ParsesPair(pair: string)
    requires |pair| == 2
    ensures ParseByte(pair).Some? <==> IsPair(pair[0], pair[1])
  {
    assert pair[..1] == [pair[0]] && pair[1..] == [pair[1]];
    assert [pair[0]][..0] == "" && [pair[1]][..0] == "";
    assert Value([pair[0]], 16) == DigitValue(pair[0], 16);
    assert Value([pair[1]], 16) == DigitValue(pair[1], 16);
  }

  predicate PairAt(text: string, i: nat) {
    2 * i + 1 < |text| && IsPair(text[2 * i], text[2 * i + 1])
  }

  /** Exactly the accepted texts. */
  lemma {:induction false} PairsAccepted(text: string)
    requires |text| % 2 == 0
    ensures ParsePairs(text).Some? <==> forall i :: 0 <= i < |text| / 2 ==> PairAt(text, i)
    ensures ParsePairs(text).Some? ==> |ParsePairs(text).value| == |text| / 2
  {
    if text != "" {
      hide ParseByte;
      var rest := text[2..];
      ParsesPair(text[..2]);
      PairsAccepted(rest);
      assert PairAt(text, 0) <==> ParseByte(text[..2]).Some?;
      forall i | 0 <= i < |rest| / 2 ensures PairAt(rest, i) <==> PairAt(text, i + 1) {
        assert rest[2 * i] == text[2 * (i + 1)] && rest[2 * i + 1] == text[2 * (i + 1) + 1];
      }
      forall i | 1 <= i < |text| / 2 ensures PairAt(text, i) <==> PairAt(rest, i - 1) {
        assert PairAt(rest, i - 1) <==> PairAt(text, i - 1 + 1);
      }
    }
  }

  /** A payload is accepted if and only if, once trimmed, it is a non-empty list of at most 2^20
      pairs, each two hex digits or a plus sign and one. */
  lemma HexAcceptedExactly(data: string)
    ensures HexDecoded(data).Ok? <==>
      var text := Trim(data);
      && text != "" && |text| % 2 == 0 && |text| / 2 <= MAX_WRITE_BYTES
      && forall i :: 0 <= i < |text| / 2 ==> PairAt(text, i)
  {
    hide Trim, ParsePairs;
    if |Trim(data)| % 2 == 0 {
      PairsAccepted(Trim(data));
    }
  }

  function Lower(c: char): char {
    if 'A' <= c <= 'F' then (c as nat - 'A' as nat + 'a' as nat) as char else c
  }

  /** Small and capital digits read alike. */
  lemma CaseDoesNotMatter(high: char, low: char)
    ensures ParseByte([Lower(high), Lower(low)]) == ParseByte([high, low])
  {
    SingleDigit(low);
    SingleDigit(Lower(low));
    TwoDigits(high, low);
    TwoDigits(Lower(high), Lower(low));
    assert [high, low][1..] == [low] && [Lower(high), Lower(low)][1..] == [Lower(low)];
  }

  lemma SingleDigit(c: char)
    ensures Value([c], 16) == DigitValue(c, 16)
  {
    ValueStep("", c, 16);
    assert "" + [c] == [c];
  }

  lemma TwoDigits(high: char, low: char)
    ensures var h, l := DigitValue(high, 16), DigitValue(low, 16);
      Value([high, low], 16) == if h.None? || l.None? then None else Some(h.value * 16 + l.value)
  {
    ValueStep([high], low, 16);
    SingleDigit(high);
    assert [high] + [low] == [high, low];
  }

  /** A plus sign and a digit are read as one byte. */
  lemma PlusSignExample()
    ensures HexDecoded("+A") == Ok([10])
  {
    TrimPlain("+A");
    PlusDigit();
    OnePair("+A");
    hide Trim, ParsePairs, ParseByte;
  }

  lemma PlusDigit()
    ensures ParseByte("+A") == Some(10)
  {
    assert "+A"[1..] == "A" && "" + [Digit(10)] == "A";
    ValueOfMore("", 10, 16);
    hide Value;
  }

  lemma OnePair(pair: string)
    requires |pair| == 2
    ensures ParsePairs(pair) == if ParseByte(pair).Some? then Some([ParseByte(pair).value]) else None
  {
    hide ParseByte;
    assert pair[..2] == pair && pair[2..] == "";
    assert ParsePairs(pair[2..]) == Some([]);
    assert ParseByte(pair).Some? ==> [ParseByte(pair).value] + [] == [ParseByte(pair).value];
  }

  // ----- the dump --------------------------------------------------------------------------

  function ParseAddress(s: string): Option<nat> {
    if "0x" <= s || "0X" <= s then ParseUnsigned(s[2..], 16, U64_MAX) else ParseUnsigned(s, 10, U64_MAX)
  }

  function AddressText(base: nat, i: nat): string {
    "0x" + PrintPadded((base + 16 * i) % TWO_64, 16, 16)
  }

  function Label(base: Option<nat>, i: nat): string {
    match base
    case Some(b) => AddressText(b, i) + ": "
    case None => "+0x" + PrintPadded(16 * i, 16, 8) + ":        "
  }

  function Cell(chunk: seq<Byte>, j: nat): string {
    (if j == 8 then " " else "") + (if j < |chunk| then Hex2(chunk[j]) + " " else "   ")
  }

  /** The first `n` hex columns of a line. */
  function Columns(chunk: seq<Byte>, n: nat): string {
    if n == 0 then "" else Columns(chunk, n - 1) + Cell(chunk, n - 1)
  }

  function Visible(b: Byte): char {
    if 32 <= b < 127 then b as char else '.'
  }

  function Sidebar(chunk: seq<Byte>): string {
    seq(|chunk|, i requires 0 <= i < |chunk| => Visible(chunk[i]))
  }

  function Line(base: Option<nat>, i: nat, chunk: seq<Byte>): string {
    Label(base, i) + Columns(chunk, 16) + " " + Sidebar(chunk)
  }

  function Chunk(data: seq<Byte>, i: nat): (chunk: seq<Byte>)
    requires 16 * i <= |data|
    ensures |chunk| <= 16
  {
    if 16 * i + 16 <= |data| then data[16 * i..16 * i + 16] else data[16 * i..]
  }

  /** The lines from chunk `i` on. */
  function DumpFrom(base: Option<nat>, data: seq<Byte>, i: nat): string
    decreases |data| - 16 * i
  {
    if 16 * i >= |data| then "" else Line(base, i, Chunk(data, i)) + "\n" + DumpFrom(base, data, i + 1)
  }

  method FormatColumns(chunk: seq<Byte>) returns (out: string)
    requires |chunk| <= 16
    ensures out == Columns(chunk, 16)
  {
    hide Hex2;
    out := "";
    for j := 0 to |chunk|
      invariant out == Columns(chunk, j)
    {
      if j == 8 {
        out := out + " ";
      }
      out := out + (Hex2(chunk[j]) + " ");
    }
    for j := |chunk| to 16
      invariant out == Columns(chunk, j)
    {
      if j == 8 {
        out := out + " ";
      }
      out := out + "   ";
    }
  }

  method FormatSidebar(chunk: seq<Byte>) returns (out: string)
    ensures out == Sidebar(chunk)
  {
    out := "";
    for j := 0 to |chunk|
      invariant out == Sidebar(chunk)[..j]
    {
      out := out + [if 33 <= chunk[j] <= 126 || chunk[j] == 32 then chunk[j] as char else '.'];
    }
  }

  method FormatLine(base: Option<nat>, i: nat, chunk: seq<Byte>) returns (out: string)
    requires |chunk| <= 16
    ensures out == Line(base, i, chunk)
  {
    hide PrintPadded, Columns, Sidebar;
    match base {
      case Some(b) =>
        var addr := (b + 16 * i) % TWO_64;
        out := "0x" + PrintPadded(addr, 16, 16) + ": ";
      case None =>
        out := "+0x" + PrintPadded(i * 16, 16, 8) + ":        ";
    }
    var columns := FormatColumns(chunk);
    var sidebar := FormatSidebar(chunk);
    out := out + columns + " " + sidebar;
  }

  method FormatMemoryRead(address: string, data: seq<Byte>, unreadable: Option<nat>) returns (output: string)
    ensures output == "Memory at " + address + " (" + Print(|data|, 10) + " bytes):\n"
      + (if unreadable.Some? then "(" + Print(unreadable.value, 10) + " byte(s) unreadable)\n" else "")
      + DumpFrom(ParseAddress(address), data, 0)
  {
    hide ParseAddress, Print, Line, Chunk;
    var base := ParseAddress(address);
    output := "Memory at " + address + " (" + Print(|data|, 10) + " bytes):\n";
    if unreadable.Some? {
      output := output + ("(" + Print(unreadable.value, 10) + " byte(s) unreadable)\n");
    }
    ghost var header := output;
    var i := 0;
    while 16 * i < |data|
      invariant header + DumpFrom(base, data, 0) == output + DumpFrom(base, data, i)
      decreases |data| - 16 * i
    {
      var line := FormatLine(base, i, Chunk(data, i));
      ghost var rest := DumpFrom(base, data, i + 1);
      assert output + (line + "\n") + rest == output + (line + "\n" + rest);
      output := output + (line + "\n");
      i := i + 1;
    }
    assert output + "" == output;
    assert unreadable.None? ==> header + "" == header;
  }

  // ----- reading a dump back -----------------------------------------------------------------

  const LABEL_WIDTH: nat := 20
  const COLUMNS_WIDTH: nat := 49

  /** Where the two digits of column `j` are. */
  function DigitOffset(j: nat): nat {
    3 * j + if j >= 8 then 1 else 0
  }

  /** Bytes shown in columns `j` and later, up to the first blank one. */
  function ReadColumns(columns: string, j: nat): seq<Byte>
    requires |columns| == COLUMNS_WIDTH && j <= 16
    decreases 16 - j
  {
    if j == 16 then []
    else
      var b := ParseByte(columns[DigitOffset(j)..DigitOffset(j) + 2]);
      if b.None? then [] else [b.value] + ReadColumns(columns, j + 1)
  }

  function ReadLine(line: string): seq<Byte> {
    if |line| < LABEL_WIDTH + COLUMNS_WIDTH then []
    else ReadColumns(line[LABEL_WIDTH..LABEL_WIDTH + COLUMNS_WIDTH], 0)
  }

  function LineEnd(text: string): (n: nat)
    ensures n <= |text|
    ensures n < |text| ==> text[n] == '\n'
  {
    if text == "" || text[0] == '\n' then 0 else 1 + LineEnd(text[1..])
  }

  /** Reads the hex columns of every line of a dump. */
  function ReadDump(text: string): seq<Byte>
    decreases |text|
  {
    if text == "" then []
    else
      var n := LineEnd(text);
      ReadLine(text[..n]) + if n < |text| then ReadDump(text[n + 1..]) else []
  }

  lemma CellWidth(chunk: seq<Byte>, j: nat)
    ensures |Cell(chunk, j)| == if j == 8 then 4 else 3
    ensures var d := if j == 8 then 1 else 0;
      Cell(chunk, j)[d..d + 2] == if j < |chunk| then Hex2(chunk[j]) else "  "
  {
    if j < |chunk| {
      Hex2IsTwoDigits(chunk[j]);
    }
  }

  lemma {:induction false} ColumnsWidth(chunk: seq<Byte>, n: nat)
    ensures |Columns(chunk, n)| == 3 * n + if n > 8 then 1 else 0
  {
    hide Cell;
    if n > 0 {
      ColumnsWidth(chunk, n - 1);
      CellWidth(chunk, n - 1);
    }
  }

  /** Every column is where it is expected, for every chunk length. */
  lemma {:induction false} ColumnsAreAligned(chunk: seq<Byte>, n: nat, j: nat)
    requires j < n
    ensures DigitOffset(j) + 2 <= |Columns(chunk, n)|
    ensures Columns(chunk, n)[DigitOffset(j)..DigitOffset(j) + 2] == if j < |chunk| then Hex2(chunk[j]) else "  "
    decreases n
  {
    hide Cell, Hex2;
    ColumnsWidth(chunk, n);
    ColumnsWidth(chunk, n - 1);
    CellWidth(chunk, n - 1);
    var before, cell := Columns(chunk, n - 1), Cell(chunk, n - 1);
    if j < n - 1 {
      ColumnsAreAligned(chunk, n - 1, j);
      assert (before + cell)[DigitOffset(j)..DigitOffset(j) + 2] == before[DigitOffset(j)..DigitOffset(j) + 2];
    } else {
      var d := if j == 8 then 1 else 0;
      assert DigitOffset(j) == |before| + d;
      assert (before + cell)[|before| + d..|before| + d + 2] == cell[d..d + 2];
    }
  }

  lemma BlankIsNoByte()
    ensures ParseByte("  ") == None
  {
    assert "  "[1..] == " " && "  "[..1] == " ";
  }

  lemma {:induction false} ColumnsReadBack(chunk: seq<Byte>, j: nat)
    requires j <= |chunk| <= 16 && |Columns(chunk, 16)| == COLUMNS_WIDTH
    ensures ReadColumns(Columns(chunk, 16), j) == chunk[j..]
    decreases 16 - j
  {
    hide Columns, Hex2, ParseByte;
    if j < 16 {
      ColumnsAreAligned(chunk, 16, j);
    }
    if j < |chunk| {
      Hex2IsTwoDigits(chunk[j]);
      ColumnsReadBack(chunk, j + 1);
    } else if j < 16 {
      BlankIsNoByte();
    }
  }

  /** A line's label is 20 characters wide exactly when the base address is known or the offset
      fits in eight hex digits. */
  lemma LabelWidth(base: Option<nat>, i: nat)
    ensures |Label(base, i)| == LABEL_WIDTH <==> base.Some? || 16 * i < 0x1_0000_0000
  {
    assert Power(16, 8) == 0x1_0000_0000 by {
      assert Power(16, 4) == 0x1_0000;
      PowerAdds(16, 4, 4);
    }
    if base.Some? {
      assert Power(16, 16) == TWO_64 by {
        PowerAdds(16, 8, 8);
      }
      PaddedWidth((base.value + 16 * i) % TWO_64, 16, 16);
    } else if 16 * i < 0x1_0000_0000 {
      PaddedWidth(16 * i, 16, 8);
    } else {
      PrintedIsWide(16 * i, 16, 8);
    }
  }

  lemma {:induction false} PowerAdds(b: nat, x: nat, y: nat)
    ensures Power(b, x + y) == Power(b, x) * Power(b, y)
  {
    if x > 0 {
      PowerAdds(b, x - 1, y);
      assert b * (Power(b, x - 1) * Power(b, y)) == b * Power(b, x - 1) * Power(b, y);
    }
  }

  lemma {:induction false} PrintedIsWide(n: nat, radix: Base, width: nat)
    requires n >= Power(radix, width)
    ensures |Print(n, radix)| > width
  {
    if width > 0 && n >= radix {
      assert n / radix >= Power(radix, width - 1);
      PrintedIsWide(n / radix, radix, width - 1);
    } else if width > 0 {
      PowerIsPositive(radix, width - 1);
    }
  }

  lemma {:induction false} PowerIsPositive(b: nat, e: nat)
    requires b > 0
    ensures Power(b, e) >= 1
  {
    if e > 0 {
      PowerIsPositive(b, e - 1);
    }
  }

  /** The ASCII column of every line of a dump starts at the same offset, whatever the length of
      the last chunk. */
  lemma SidebarIsAligned(base: Option<nat>, i: nat, chunk: seq<Byte>)
    requires |chunk| <= 16 && (base.Some? || 16 * i < 0x1_0000_0000)
    ensures var line := Line(base, i, chunk);
      && |line| == LABEL_WIDTH + COLUMNS_WIDTH + 1 + |chunk|
      && line[LABEL_WIDTH + COLUMNS_WIDTH + 1..] == Sidebar(chunk)
      && (forall k :: 0 <= k < |chunk| ==>
           line[LABEL_WIDTH + COLUMNS_WIDTH + 1 + k] ==
             if ' ' as int <= chunk[k] <= '~' as int then chunk[k] as char else '.')
      && line[LABEL_WIDTH..LABEL_WIDTH + COLUMNS_WIDTH] == Columns(chunk, 16)
  {
    hide Label, Columns, Sidebar;
    LabelWidth(base, i);
    ColumnsWidth(chunk, 16);
    SidebarLength(chunk);
    var line := Line(base, i, chunk);
    forall k | 0 <= k < |chunk|
      ensures line[LABEL_WIDTH + COLUMNS_WIDTH + 1 + k] == Sidebar(chunk)[k]
    {
      assert line[LABEL_WIDTH + COLUMNS_WIDTH + 1..][k] == line[LABEL_WIDTH + COLUMNS_WIDTH + 1 + k];
    }
  }

  lemma SidebarLength(chunk: seq<Byte>)
    ensures |Sidebar(chunk)| == |chunk|
    ensures forall k :: 0 <= k < |chunk| ==>
      Sidebar(chunk)[k] == if ' ' as int <= chunk[k] <= '~' as int then chunk[k] as char else '.'
  {
  }

  /** The address printed in front of line `i` parses back to the address of its first byte. */
  lemma AddressReadsBack(base: nat, i: nat)
    ensures ParseAddress(AddressText(base, i)) == Some((base + 16 * i) % TWO_64)
    ensures AddressText(base, i) + ": " == Label(Some(base), i)
  {
    var n := (base + 16 * i) % TWO_64;
    ParsePrinted(n, 16, 16, U64_MAX);
    assert AddressText(base, i)[2..] == PrintPadded(n, 16, 16);
  }

  ghost predicate OneLine(s: string) {
    forall i :: 0 <= i < |s| ==> s[i] != '\n'
  }

  lemma DigitsAreOneLine(s: string)
    requires IsDigits(s, 16)
    ensures OneLine(s)
  {
    forall i | 0 <= i < |s| ensures s[i] != '\n' {
      HexDigitIsPlain(s[i]);
    }
  }

  lemma LabelIsOneLine(base: Option<nat>, i: nat)
    ensures OneLine(Label(base, i))
  {
    hide PrintPadded;
    match base {
      case Some(b) =>
        ParsePrinted((b + 16 * i) % TWO_64, 16, 16, U64_MAX);
        DigitsAreOneLine(PrintPadded((b + 16 * i) % TWO_64, 16, 16));
      case None =>
        ParsePrinted(16 * i, 16, 8, 16 * i);
        DigitsAreOneLine(PrintPadded(16 * i, 16, 8));
    }
  }

  lemma {:induction false} ColumnsAreOneLine(chunk: seq<Byte>, n: nat)
    ensures OneLine(Columns(chunk, n))
  {
    if n > 0 {
      ColumnsAreOneLine(chunk, n - 1);
      if n - 1 < |chunk| {
        Hex2IsTwoDigits(chunk[n - 1]);
        DigitsAreOneLine(Hex2(chunk[n - 1]));
      }
    }
  }

  lemma {:induction false} LineEndAt(line: string, rest: string)
    requires OneLine(line)
    ensures LineEnd(line + "\n" + rest) == |line|
  {
    var text := line + "\n" + rest;
    if line != "" {
      assert text[1..] == line[1..] + "\n" + rest;
      LineEndAt(line[1..], rest);
    }
  }

  lemma DumpLineReadsBack(base: Option<nat>, i: nat, chunk: seq<Byte>, rest: string)
    requires |chunk| <= 16 && (base.Some? || 16 * i < 0x1_0000_0000)
    ensures ReadDump(Line(base, i, chunk) + "\n" + rest) == chunk + ReadDump(rest)
  {
    var line := Line(base, i, chunk);
    LabelIsOneLine(base, i);
    ColumnsAreOneLine(chunk, 16);
    assert OneLine(line);
    LineEndAt(line, rest);
    var text := line + "\n" + rest;
    assert text[..|line|] == line && text[|line| + 1..] == rest;
    SidebarIsAligned(base, i, chunk);
    ColumnsWidth(chunk, 16);
    ColumnsReadBack(chunk, 0);
  }

  /** Reading the hex columns of a dump gives back the bytes that were dumped. */
  lemma {:induction false} DumpIsLossless(base: Option<nat>, data: seq<Byte>, i: nat)
    requires 16 * i <= |data| + 15 && (base.Some? || |data| <= 0x1_0000_0000)
    ensures ReadDump(DumpFrom(base, data, i)) == if 16 * i <= |data| then data[16 * i..] else []
    decreases |data| - 16 * i
  {
    if 16 * i < |data| {
      var chunk := Chunk(data, i);
      ChunkThenRest(data, i);
      hide Line, Chunk, ReadDump;
      DumpIsLossless(base, data, i + 1);
      DumpLineReadsBack(base, i, chunk, DumpFrom(base, data, i + 1));
    }
  }

  lemma ChunkThenRest(data: seq<Byte>, i: nat)
    requires 16 * i < |data|
    ensures data[16 * i..] == Chunk(data, i) + if 16 * (i + 1) <= |data| then data[16 * (i + 1)..] else []
  {
  }
}
