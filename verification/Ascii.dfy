/** ASCII text helpers shared by the header parser, the hex parser and the highlighter. */
module Ascii {
  predicate IsWhitespace(c: char) {
    c == ' ' || '\t' <= c <= '\r'
  }

  function TrimStart(s: string): string {
    if s != "" && IsWhitespace(s[0]) then TrimStart(s[1..]) else s
  }

  function TrimEnd(s: string): string {
    if s != "" && IsWhitespace(s[|s| - 1]) then TrimEnd(s[..|s| - 1]) else s
  }

  function Trim(s: string): string {
    TrimEnd(TrimStart(s))
  }

  /** The ASCII white space that trimming strips, in front and behind. */
  lemma TrimStrips(c: char, s: string)
    requires c in {' ', '\t', '\n', 11 as char, 12 as char, '\r'}
    ensures TrimStart([c] + s) == TrimStart(s) && TrimEnd(s + [c]) == TrimEnd(s)
  {
    assert ([c] + s)[1..] == s && (s + [c])[..|s|] == s;
  }

  /** Text that neither starts nor ends in whitespace is left alone. */
  lemma TrimPlain(s: string)
    requires s != "" ==> !IsWhitespace(s[0]) && !IsWhitespace(s[|s| - 1])
    ensures Trim(s) == s
  {
  }
}
