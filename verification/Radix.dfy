/** Printing and parsing of unsigned integers in base 10 and 16, as the Rust standard library
    does it: parsing takes an optional `+`, either letter case, and refuses values above a bound. */
module Radix {
  import opened Wrappers

  const U64_MAX: nat := 0xFFFF_FFFF_FFFF_FFFF

  type Base = r: nat | r == 10 || r == 16 witness 10

  function Digit(d: nat): char
    requires d < 16
  {
    "0123456789ABCDEF"[d]
  }

  function DigitValue(c: char, radix: Base): Option<nat> {
    if '0' <= c <= '9' then Some(c as nat - '0' as nat)
    else if radix == 16 && 'A' <= c <= 'F' then Some(c as nat - 'A' as nat + 10)
    else if radix == 16 && 'a' <= c <= 'f' then Some(c as nat - 'a' as nat + 10)
    else None
  }

  /** The value of a string of digits, most significant first. */
  function Value(digits: string, radix: Base): Option<nat> {
    if digits == "" then Some(0)
    else
      var high, low := Value(digits[..|digits| - 1], radix), DigitValue(digits[|digits| - 1], radix);
      if high.None? || low.None? then None else Some(high.value * radix + low.value)
  }

  function ParseUnsigned(text: string, radix: Base, max: nat): Option<nat> {
    var digits := if text != "" && text[0] == '+' then text[1..] else text;
    if digits == "" then None
    else
      var v := Value(digits, radix);
      if v.Some? && v.value <= max then v else None
  }

  function Print(n: nat, radix: Base): (s: string)
    ensures s != ""
  {
    (if n < radix then "" else Print(n / radix, radix)) + [Digit(n % radix)]
  }

  function Zeros(n: nat): (s: string)
    ensures |s| == n
  {
    seq(n, _ => '0')
  }

  /** At least `width` digits, zeros in front. */
  function PrintPadded(n: nat, radix: Base, width: nat): string {
    var s := Print(n, radix);
    if |s| < width then Zeros(width - |s|) + s else s
  }

  predicate IsDigits(s: string, radix: Base) {
    forall i :: 0 <= i < |s| ==> DigitValue(s[i], radix).Some?
  }

  lemma DigitRoundTrip(d: nat, radix: Base)
    requires d < radix
    ensures DigitValue(Digit(d), radix) == Some(d)
  {
  }

  lemma Recompose(n: nat, radix: Base)
    ensures n / radix * radix + n % radix == n
    ensures n >= radix ==> n / radix < n
  {
    if radix == 10 {
    }
  }

  lemma ValueOfMore(s: string, d: nat, radix: Base)
    requires d < radix && Value(s, radix).Some?
    ensures Value(s + [Digit(d)], radix) == Some(Value(s, radix).value * radix + d)
  {
    DigitRoundTrip(d, radix);
    hide Value, Digit, DigitValue;
    ValueStep(s, Digit(d), radix);
  }

  lemma ValueStep(s: string, c: char, radix: Base)
    ensures var high, low := Value(s, radix), DigitValue(c, radix);
      Value(s + [c], radix) == if high.None? || low.None? then None else Some(high.value * radix + low.value)
  {
    assert (s + [c])[..|s|] == s;
  }

  lemma PrintStep(n: nat, radix: Base)
    ensures Print(n, radix) == (if n < radix then "" else Print(n / radix, radix)) + [Digit(n % radix)]
  {
  }

  lemma {:induction false} PrintThenValue(n: nat, radix: Base)
    ensures Value(Print(n, radix), radix) == Some(n)
    decreases n
  {
    hide Print, Digit;
    Recompose(n, radix);
    PrintStep(n, radix);
    if n >= radix {
      PrintThenValue(n / radix, radix);
      ValueOfMore(Print(n / radix, radix), n % radix, radix);
    } else {
      ValueOfMore("", n % radix, radix);
    }
  }

  lemma {:induction false} PrintsDigits(n: nat, radix: Base)
    ensures IsDigits(Print(n, radix), radix)
    decreases n
  {
    DigitRoundTrip(n % radix, radix);
    Recompose(n, radix);
    if n >= radix {
      PrintsDigits(n / radix, radix);
    }
  }

  lemma {:induction false} LeadingZeros(k: nat, s: string, radix: Base)
    ensures Value(Zeros(k) + s, radix) == Value(s, radix)
    decreases |s|, k
  {
    var t := Zeros(k) + s;
    if s != "" {
      assert t[..|t| - 1] == Zeros(k) + s[..|s| - 1];
      LeadingZeros(k, s[..|s| - 1], radix);
    } else if k > 0 {
      assert t[..|t| - 1] == Zeros(k - 1) + s;
      LeadingZeros(k - 1, s, radix);
    }
  }

  /** Parsing undoes printing, padded or not. */
  lemma ParsePrinted(n: nat, radix: Base, width: nat, max: nat)
    requires n <= max
    ensures ParseUnsigned(PrintPadded(n, radix, width), radix, max) == Some(n)
    ensures IsDigits(PrintPadded(n, radix, width), radix)
    ensures width == 0 ==> PrintPadded(n, radix, width) == Print(n, radix)
  {
    hide Print, Value, Digit;
    var s := Print(n, radix);
    PrintThenValue(n, radix);
    PrintsDigits(n, radix);
    if |s| < width {
      LeadingZeros(width - |s|, s, radix);
    }
  }

  function Power(b: nat, e: nat): nat {
    if e == 0 then 1 else b * Power(b, e - 1)
  }

  /** A number below radix^width prints in exactly `width` padded digits. */
  lemma {:induction false} PaddedWidth(n: nat, radix: Base, width: nat)
    requires width > 0 && n < Power(radix, width)
    ensures |PrintPadded(n, radix, width)| == width
  {
    PrintedWidth(n, radix, width);
  }

  lemma {:induction false} PrintedWidth(n: nat, radix: Base, width: nat)
    requires width > 0 && n < Power(radix, width)
    ensures |Print(n, radix)| <= width
  {
    if n >= radix {
      assert width > 1;
      assert n / radix < Power(radix, width - 1);
      PrintedWidth(n / radix, radix, width - 1);
    }
  }
}
