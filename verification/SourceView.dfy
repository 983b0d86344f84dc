/** The source snippet shown at a stop: the window of lines around it, and a one-pass highlighter
    that must not lose or reorder a character.  Lines are ASCII. */
module SourceView {
  import opened Radix
  import opened Ascii

  const ESC := 27 as char

  // ----- styling ---------------------------------------------------------------------------

  datatype Style = Style(enabled: bool)
  {
    function Wrap(text: string, code: string): string {
      if enabled then [ESC] + "[" + code + "m" + text + [ESC] + "[0m" else text
    }

    function Dim(text: string): string { Wrap(text, "2") }

    function Green(text: string): string { Wrap(text, "32") }

    function Yellow(text: string): string { Wrap(text, "33") }

    function Blue(text: string): string { Wrap(text, "34") }
  }

  /** A stretch of a line, and the color it is shown in. */
  datatype Piece = Plain(text: string) | Colored(code: string, text: string)

  function RenderPiece(p: Piece): string {
    match p
    case Plain(text) => text
    case Colored(code, text) => Style(true).Wrap(text, code)
  }

  function Render(pieces: seq<Piece>): string {
    if pieces == [] then "" else RenderPiece(pieces[0]) + Render(pieces[1..])
  }

  function Raw(pieces: seq<Piece>): string {
    if pieces == [] then "" else pieces[0].text + Raw(pieces[1..])
  }

  /** Drops an escape sequence up to its final `m`. */
  function AfterM(s: string): (r: string)
    ensures |r| <= |s|
  {
    if s == "" then "" else if s[0] == 'm' then s[1..] else AfterM(s[1..])
  }

  /** The text a terminal shows. */
  function StripAnsi(s: string): string
    decreases |s|
  {
    if s == "" then ""
    else if s[0] == ESC then StripAnsi(AfterM(s[1..]))
    else [s[0]] + StripAnsi(s[1..])
  }

  // ----- the scanner -----------------------------------------------------------------------

  /** Where a string literal that opened before `idx` ends. */
  function StringEnd(line: string, idx: nat, quote: char): (end: nat)
    requires idx <= |line|
    ensures idx <= end <= |line|
    decreases |line| - idx
  {
    if idx == |line| then idx
    else if line[idx] == '\\' then StringEnd(line, if idx + 2 <= |line| then idx + 2 else |line|, quote)
    else if line[idx] == quote then idx + 1
    else StringEnd(line, idx + 1, quote)
  }

  const KEYWORDS := ["def ", "class ", "return ", "import ", "from ", "if ", "for ", "while ", "elif ",
                    "else:", "try:", "except"]

  predicate StartsAt(line: string, idx: nat, word: string) {
    idx <= |line| && word <= line[idx..]
  }

  predicate KeywordAt(line: string, idx: nat) {
    exists k :: 0 <= k < |KEYWORDS| && StartsAt(line, idx, KEYWORDS[k])
  }

  function WordEnd(line: string, idx: nat): (end: nat)
    requires idx <= |line|
    ensures idx <= end <= |line|
    decreases |line| - idx
  {
    if idx == |line| || IsWhitespace(line[idx]) || line[idx] == ':' then idx else WordEnd(line, idx + 1)
  }

  lemma KeywordAdvances(line: string, idx: nat)
    requires KeywordAt(line, idx)
    ensures idx < |line| && WordEnd(line, idx) > idx
  {
    var k :| 0 <= k < |KEYWORDS| && StartsAt(line, idx, KEYWORDS[k]);
    assert line[idx] == KEYWORDS[k][0];
    assert KEYWORDS[k][0] in {'d', 'c', 'r', 'i', 'f', 'w', 'e', 't'};
  }

  /** Where the piece that starts at `idx` ends: a comment runs to the end of the line, a string
      to its closing quote, a keyword to the end of its word, anything else is one character. */
  function PieceEnd(line: string, idx: nat): (end: nat)
    requires idx < |line|
    ensures idx < end <= |line|
  {
    if line[idx] == '#' then |line|
    else if line[idx] == '"' || line[idx] == '\'' then StringEnd(line, idx + 1, line[idx])
    else if KeywordAt(line, idx) then
      KeywordAdvances(line, idx);
      WordEnd(line, idx)
    else idx + 1
  }

  function PieceAt(line: string, idx: nat): Piece
    requires idx < |line|
  {
    var text := line[idx..PieceEnd(line, idx)];
    if line[idx] == '#' then Colored("2", text)
    else if line[idx] == '"' || line[idx] == '\'' then Colored("33", text)
    else if KeywordAt(line, idx) then Colored("34", text)
    else Plain(text)
  }

  /** The pieces of a line from `idx` on. */
  function Scan(line: string, idx: nat): seq<Piece>
    requires idx <= |line|
    decreases |line| - idx
  {
    if idx == |line| then [] else [PieceAt(line, idx)] + Scan(line, PieceEnd(line, idx))
  }

  function Highlighted(line: string, style: Style): string {
    if !style.enabled then line
    else if "//" <= TrimStart(line) || "#" <= TrimStart(line) then style.Dim(line)
    else Render(Scan(line, 0))
  }

  method SkipString(line: string, start: nat, quote: char) returns (idx: nat)
    requires start < |line|
    ensures idx == StringEnd(line, start + 1, quote)
  {
    idx := start + 1;
    while idx < |line|
      invariant idx <= |line| && StringEnd(line, idx, quote) == StringEnd(line, start + 1, quote)
      decreases |line| - idx
    {
      if line[idx] == '\\' {
        idx := if idx + 2 <= |line| then idx + 2 else |line|;
        continue;
      }
      if line[idx] == quote {
        idx := idx + 1;
        return;
      }
      idx := idx + 1;
    }
  }

  /** Emits the piece at `start` and moves past it. */
  method EmitPiece(line: string, start: nat, style: Style) returns (text: string, idx: nat)
    requires start < |line| && style.enabled
    ensures idx == PieceEnd(line, start) && text == RenderPiece(PieceAt(line, start))
  {
    hide KeywordAt;
    if line[start] == '#' {
      return style.Dim(line[start..]), |line|;
    }
    if line[start] == '"' || line[start] == '\'' {
      idx := SkipString(line, start, line[start]);
      text := style.Yellow(line[start..idx]);
    } else if KeywordAt(line, start) {
      KeywordAdvances(line, start);
      idx := WordEnd(line, start);
      text := style.Blue(line[start..idx]);
    } else {
      idx := start + 1;
      text := line[start..idx];
    }
  }

  lemma RenderStep(line: string, idx: nat)
    requires idx < |line|
    ensures Render(Scan(line, idx)) == RenderPiece(PieceAt(line, idx)) + Render(Scan(line, PieceEnd(line, idx)))
  {
    hide PieceAt, RenderPiece, PieceEnd;
    assert Scan(line, idx)[1..] == Scan(line, PieceEnd(line, idx));
  }

  lemma RenderNothing(line: string)
    ensures Render(Scan(line, |line|)) == ""
  {
  }

  method HighlightPythonLine(line: string, style: Style) returns (out: string)
    ensures out == if !style.enabled then line
                   else if "#" <= TrimStart(line) then style.Dim(line)
                   else Render(Scan(line, 0))
  {
    if !style.enabled {
      return line;
    }
    if "#" <= TrimStart(line) {
      return style.Dim(line);
    }
    out := EmitPieces(line, style);
  }

  method EmitPieces(line: string, style: Style) returns (out: string)
    requires style.enabled
    ensures out == Render(Scan(line, 0))
  {
    hide PieceAt, RenderPiece, PieceEnd, Render, Scan;
    RenderNothing(line);
    out := "";
    assert out + Render(Scan(line, 0)) == Render(Scan(line, 0));
    var idx := 0;
    while idx < |line|
      invariant idx <= |line|
      invariant Render(Scan(line, 0)) == out + Render(Scan(line, idx))
      decreases |line| - idx
    {
      var text, next := EmitPiece(line, idx, style);
      RenderStep(line, idx);
      Associate(out, text, Render(Scan(line, next)));
      out := out + text;
      idx := next;
    }
    assert out + "" == out;
  }

  lemma Associate(a: string, b: string, c: string)
    ensures a + (b + c) == a + b + c
  {
  }

  method HighlightSourceLine(line: string, style: Style) returns (out: string)
    ensures out == Highlighted(line, style)
  {
    if !style.enabled {
      return line;
    }
    if "//" <= TrimStart(line) {
      return style.Dim(line);
    }
    out := HighlightPythonLine(line, style);
  }

  /** A keyword, a string with an escaped quote in it, and a comment, each in its color. */
  lemma PiecesExample()
    ensures Scan("if 'a\\'b'#c", 0) ==
      [Colored("34", "if"), Plain(" "), Colored("33", "'a\\'b'"), Colored("2", "#c")]
  {
    var line := "if 'a\\'b'#c";
    assert StartsAt(line, 0, KEYWORDS[5]);
    assert line[0..2] == "if" && line[2..3] == " " && line[3..9] == "'a\\'b'" && line[9..11] == "#c";
    assert WordEnd(line, 2) == 2 && WordEnd(line, 1) == 2;
    assert StringEnd(line, 8, '\'') == 9 && StringEnd(line, 7, '\'') == 9 && StringEnd(line, 5, '\'') == 9;
    SpaceIsNoKeyword(line, 2);
    assert Scan(line, 11) == [];
    assert Scan(line, 9) == [Colored("2", "#c")] + Scan(line, 11);
    assert Scan(line, 3) == [Colored("33", "'a\\'b'")] + Scan(line, 9);
    assert Scan(line, 2) == [Plain(" ")] + Scan(line, 3);
  }

  lemma SpaceIsNoKeyword(line: string, idx: nat)
    requires idx < |line| && line[idx] == ' '
    ensures !KeywordAt(line, idx)
  {
    forall k | 0 <= k < |KEYWORDS| ensures !StartsAt(line, idx, KEYWORDS[k]) {
      assert KEYWORDS[k][0] != ' ' && line[idx..][0] == ' ';
    }
  }

  // ----- nothing is lost ---------------------------------------------------------------------

  /** The scanner cuts a line into pieces without losing or repeating a character. */
  lemma {:induction false} ScanIsLossless(line: string, idx: nat)
    requires idx <= |line|
    ensures Raw(Scan(line, idx)) == line[idx..]
    decreases |line| - idx
  {
    if idx < |line| {
      var pieces, end := Scan(line, idx), PieceEnd(line, idx);
      ScanIsLossless(line, end);
      assert pieces[1..] == Scan(line, end) && pieces[0].text == line[idx..end];
      assert line[idx..] == line[idx..end] + line[end..];
    }
  }

  lemma {:induction false} StripPlain(s: string, rest: string)
    requires ESC !in s
    ensures StripAnsi(s + rest) == s + StripAnsi(rest)
  {
    if s == "" {
      assert s + rest == rest;
    } else {
      assert (s + rest)[1..] == s[1..] + rest;
      StripPlain(s[1..], rest);
    }
  }

  lemma {:induction false} AfterCode(code: string, rest: string)
    requires 'm' !in code
    ensures AfterM(code + "m" + rest) == rest
  {
    var s := code + "m" + rest;
    if code != "" {
      assert s[1..] == code[1..] + "m" + rest;
      AfterCode(code[1..], rest);
    }
  }

  lemma StripWrapped(text: string, code: string, rest: string)
    requires ESC !in text && 'm' !in code
    ensures StripAnsi(Style(true).Wrap(text, code) + rest) == text + StripAnsi(rest)
  {
    var tail := [ESC] + "[0m" + rest;
    var s := Style(true).Wrap(text, code) + rest;
    assert s[1..] == ("[" + code) + "m" + (text + tail);
    AfterCode("[" + code, text + tail);
    StripPlain(text, tail);
    assert tail[1..] == "[0" + "m" + rest;
    AfterCode("[0", rest);
  }

  lemma {:induction false} StripRendered(pieces: seq<Piece>)
    requires ESC !in Raw(pieces)
    requires forall p :: p in pieces && p.Colored? ==> 'm' !in p.code
    ensures StripAnsi(Render(pieces)) == Raw(pieces)
  {
    if pieces != [] {
      var p, rest := pieces[0], Render(pieces[1..]);
      assert forall c :: c in p.text || c in Raw(pieces[1..]) ==> c in Raw(pieces);
      StripRendered(pieces[1..]);
      match p {
        case Plain(text) => StripPlain(text, rest);
        case Colored(code, text) => StripWrapped(text, code, rest);
      }
    }
  }

  lemma {:induction false} ScanColors(line: string, idx: nat)
    requires idx <= |line|
    ensures forall p :: p in Scan(line, idx) && p.Colored? ==> 'm' !in p.code
    decreases |line| - idx
  {
    if idx < |line| {
      ScanColors(line, PieceEnd(line, idx));
    }
  }

  /** Highlighting never changes the text a terminal shows. */
  lemma HighlightingIsInvisible(line: string, style: Style)
    requires ESC !in line
    ensures StripAnsi(Highlighted(line, style)) == line
  {
    assert line + "" == line && line[0..] == line;
    if !style.enabled {
      StripPlain(line, "");
    } else if "//" <= TrimStart(line) || "#" <= TrimStart(line) {
      StripWrapped(line, "2", "");
      assert style.Dim(line) + "" == style.Dim(line);
    } else {
      ScanIsLossless(line, 0);
      ScanColors(line, 0);
      StripRendered(Scan(line, 0));
    }
  }

  // ----- the window -----------------------------------------------------------------------------

  datatype Row = Row(number: nat, marked: bool, text: string)

  function Clamp(line: int, low: int, high: int): int
    requires low <= high
  {
    if line < low then low else if line > high then high else line
  }

  function Current(line: int, lines: seq<string>): nat
    requires lines != []
  {
    Clamp(line, 1, |lines|)
  }

  function First(line: int, lines: seq<string>, context: nat): nat
    requires lines != []
  {
    var current := Current(line, lines);
    if current > context + 1 then current - context else 1
  }

  function End(line: int, lines: seq<string>, context: nat): nat
    requires lines != []
  {
    var current := Current(line, lines);
    if current + context <= |lines| then current + context else |lines|
  }

  /** The rows shown: line numbers, the mark on the current line, and the text. */
  function Window(line: int, lines: seq<string>, context: nat): seq<Row>
    requires lines != []
  {
    var first, end, current := First(line, lines, context), End(line, lines, context), Current(line, lines);
    seq(end + 1 - first,
        i requires 0 <= i < end + 1 - first => Row(first + i, first + i == current, lines[first + i - 1]))
  }

  function Spaces(n: nat): string {
    seq(n, _ => ' ')
  }

  function RightAligned(text: string, width: nat): string {
    if |text| < width then Spaces(width - |text|) + text else text
  }

  function RenderRow(row: Row, width: nat, style: Style): string {
    "  " + (if row.marked then style.Green(">") else " ") + " "
    + style.Dim(RightAligned(Print(row.number, 10), width)) + " | " + Highlighted(row.text, style) + "\n"
  }

  function RenderRows(rows: seq<Row>, width: nat, style: Style): string {
    if rows == [] then "" else RenderRow(rows[0], width, style) + RenderRows(rows[1..], width, style)
  }

  function NumberWidth(end: nat): nat {
    if |Print(end, 10)| < 3 then 3 else |Print(end, 10)|
  }

  lemma WindowRows(line: int, lines: seq<string>, context: nat)
    requires lines != []
    ensures var rows, first, current := Window(line, lines, context), First(line, lines, context), Current(line, lines);
      && |rows| == End(line, lines, context) + 1 - first
      && forall i :: 0 <= i < |rows| ==> rows[i] == Row(first + i, first + i == current, lines[first + i - 1])
  {
  }

  method FormatRow(number: nat, marked: bool, source: string, width: nat, style: Style) returns (row: string)
    ensures row == RenderRow(Row(number, marked, source), width, style)
  {
    hide Highlighted, Print, RightAligned;
    var marker := if marked then style.Green(">") else " ";
    var lineNum := style.Dim(RightAligned(Print(number, 10), width));
    var text := HighlightSourceLine(source, style);
    row := "  " + marker + " " + lineNum + " | " + text + "\n";
  }

  /** The rows for lines `start..end`. */
  method FormatRows(lines: seq<string>, current: nat, start: nat, end: nat, width: nat, style: Style,
                    ghost rows: seq<Row>)
      returns (out: string)
    requires 1 <= start <= end <= |lines| && |rows| == end + 1 - start
    requires forall i :: 0 <= i < |rows| ==> rows[i] == Row(start + i, start + i == current, lines[start + i - 1])
    ensures out == RenderRows(rows, width, style)
  {
    hide RenderRow;
    out := "";
    assert rows[0..] == rows;
    for lineNo := start to end + 1
      invariant RenderRows(rows, width, style) == out + RenderRows(rows[lineNo - start..], width, style)
    {
      ghost var left := rows[lineNo - start..];
      assert left[0] == rows[lineNo - start] && left[1..] == rows[lineNo + 1 - start..];
      var row := FormatRow(lineNo, lineNo == current, lines[lineNo - 1], width, style);
      Associate(out, row, RenderRows(left[1..], width, style));
      out := out + row;
    }
    assert rows[|rows|..] == [] && out + "" == out;
  }

  method FormatSourceSnippet(line: int, lines: seq<string>, context: nat, style: Style) returns (out: string)
    ensures lines == [] ==> out == "(empty source file)\n"
    ensures lines != [] ==>
      out == RenderRows(Window(line, lines, context), NumberWidth(End(line, lines, context)), style)
  {
    if lines == [] {
      return "(empty source file)\n";
    }
    hide Window, RenderRows, NumberWidth, Print, Highlighted;
    var current := Clamp(line, 1, |lines|);
    var start := if current - context > 1 then current - context else 1;
    var end := if current + context < |lines| then current + context else |lines|;
    ghost var rows := Window(line, lines, context);
    WindowRows(line, lines, context);
    assert start == First(line, lines, context) && end == End(line, lines, context) && current == Current(line, lines);
    hide First, End, Current, Clamp;
    out := FormatRows(lines, current, start, end, NumberWidth(end), style, rows);
  }

  predicate ShowsLine(rows: seq<Row>, n: int) {
    exists i :: 0 <= i < |rows| && rows[i].number == n
  }

  /** The window shows exactly the lines of the file within `context` of the marked line, each
      once and in order; the marked line is among them, and it is the requested one when the file
      has it. */
  lemma WindowIsExact(line: int, lines: seq<string>, context: nat)
    requires lines != []
    ensures var rows, current := Window(line, lines, context), Current(line, lines);
      && 1 <= |rows| <= 2 * context + 1
      && (forall i :: 0 <= i < |rows| ==>
           1 <= rows[i].number <= |lines| && rows[i].text == lines[rows[i].number - 1]
           && rows[i].number == rows[0].number + i)
      && (forall n :: ShowsLine(rows, n) <==> 1 <= n <= |lines| && current - context <= n <= current + context)
      && (forall i :: 0 <= i < |rows| ==> (rows[i].marked <==> rows[i].number == current))
      && ShowsLine(rows, current)
      && (forall i, j :: 0 <= i < |rows| && 0 <= j < |rows| && rows[i].marked && rows[j].marked ==> i == j)
      && (1 <= line <= |lines| ==> current == line)
  {
    var rows, current, first := Window(line, lines, context), Current(line, lines), First(line, lines, context);
    forall n ensures ShowsLine(rows, n) <==> 1 <= n <= |lines| && current - context <= n <= current + context {
      if 1 <= n <= |lines| && current - context <= n <= current + context {
        assert rows[n - first].number == n;
      }
    }
  }

  /** One row as it is written without colors: a mark, the right-aligned number, the text. */
  lemma PlainRows()
    ensures RenderRow(Row(7, true, "x"), 3, Style(false)) == "  >   7 | x\n"
    ensures RenderRow(Row(12, false, "y"), 3, Style(false)) == "     12 | y\n"
  {
    assert Print(7, 10) == "7" && Print(1, 10) == "1" && Print(12, 10) == "12";
    assert Spaces(2) == "  " && Spaces(1) == " ";
  }
}
