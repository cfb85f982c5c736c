/**
 * Bytes of a MIDI message and the two textual forms a byte takes in the
 * program: the two-digit lower-case hexadecimal token that data descriptions
 * show (src/controller.cpp:175-176), and the base-16 number an operator types
 * when composing a message to send (src/controller.cpp:199).
 */
module Bytes {
  import opened Wrappers

  /** One element of a QByteArray, read as an unsigned 8-bit value. */
  type Byte = bv8

  /** The byte holding `d` in its low nibble. */
  function LowNibbleByte(d: nat): (b: Byte)
    requires d < 16
    ensures b as int == d
  {
    if d == 0 then 0x00 else if d == 1 then 0x01 else if d == 2 then 0x02 else if d == 3 then 0x03
    else if d == 4 then 0x04 else if d == 5 then 0x05 else if d == 6 then 0x06 else if d == 7 then 0x07
    else if d == 8 then 0x08 else if d == 9 then 0x09 else if d == 10 then 0x0A else if d == 11 then 0x0B
    else if d == 12 then 0x0C else if d == 13 then 0x0D else if d == 14 then 0x0E else 0x0F
  }

  /** The byte holding `d` in its high nibble. */
  function HighNibbleByte(d: nat): (b: Byte)
    requires d < 16
    ensures b as int == d * 16
  {
    if d == 0 then 0x00 else if d == 1 then 0x10 else if d == 2 then 0x20 else if d == 3 then 0x30
    else if d == 4 then 0x40 else if d == 5 then 0x50 else if d == 6 then 0x60 else if d == 7 then 0x70
    else if d == 8 then 0x80 else if d == 9 then 0x90 else if d == 10 then 0xA0 else if d == 11 then 0xB0
    else if d == 12 then 0xC0 else if d == 13 then 0xD0 else if d == 14 then 0xE0 else 0xF0
  }

  /**
   * The byte `static_cast<quint8>(v)` gives for a value already known to be
   * at most 0xff: the byte with that value, assembled from its two nibbles.
   */
  function ToByte(v: nat): (b: Byte)
    requires v <= 0xFF
    ensures b as int == v
  {
    HighNibbleByte(v / 16) | LowNibbleByte(v % 16)
  }

  /** Two bytes with the same value are the same byte. */
  lemma ValueDeterminesByte(a: Byte, b: Byte)
    requires a as int == b as int
    ensures a == b
  {
  }

  predicate IsHexDigit(c: char) {
    ('0' <= c <= '9') || ('a' <= c <= 'f') || ('A' <= c <= 'F')
  }

  predicate AllHexDigits(s: string) {
    forall i :: 0 <= i < |s| ==> IsHexDigit(s[i])
  }

  /** The value of one hexadecimal digit, in either case. */
  function DigitValue(c: char): (d: nat)
    requires IsHexDigit(c)
    ensures d < 16
  {
    if '0' <= c <= '9' then c as int - '0' as int
    else if 'a' <= c <= 'f' then c as int - 'a' as int + 10
    else c as int - 'A' as int + 10
  }

  /** The lower-case hexadecimal digit for `d`; reading it back gives `d`. */
  function HexDigit(d: nat): (c: char)
    requires d < 16
    ensures IsHexDigit(c) && DigitValue(c) == d
    ensures !('A' <= c <= 'Z')
  {
    if d < 10 then ('0' as int + d) as char else ('a' as int + d - 10) as char
  }

  /**
   * A byte as `QString("%1").arg(b, 2, 16, QChar('0'))` renders it: two
   * lower-case hexadecimal digits, high nibble first.
   */
  function Hex2(b: Byte): (s: string)
    ensures |s| == 2 && IsHexDigit(s[0]) && IsHexDigit(s[1])
    ensures DigitValue(s[0]) * 16 + DigitValue(s[1]) == b as int
    ensures !('A' <= s[0] <= 'Z') && !('A' <= s[1] <= 'Z')
  {
    [HexDigit(b as int / 16), HexDigit(b as int % 16)]
  }

  /** The hexadecimal tokens of `bytes`, one per byte, in order. */
  function HexTokens(bytes: seq<Byte>): seq<string> {
    seq(|bytes|, i requires 0 <= i < |bytes| => Hex2(bytes[i]))
  }

  /** The value of a run of hexadecimal digits, most significant first. */
  function HexValue(digits: string): nat
    requires AllHexDigits(digits)
  {
    if |digits| == 0 then 0
    else HexValue(digits[..|digits| - 1]) * 16 + DigitValue(digits[|digits| - 1])
  }

  /**
   * The characters `QChar::isSpace` reports as white space: the ASCII
   * controls 0x09-0x0D, the space, NEL, NO-BREAK SPACE, and the Unicode
   * space, line and paragraph separators.
   */
  const SpaceChars: set<char> :=
    {'\t', '\n', '\U{000B}', '\U{000C}', '\r', ' ', '\U{0085}', '\U{00A0}', '\U{1680}',
     '\U{2000}', '\U{2001}', '\U{2002}', '\U{2003}', '\U{2004}', '\U{2005}', '\U{2006}',
     '\U{2007}', '\U{2008}', '\U{2009}', '\U{200A}', '\U{2028}', '\U{2029}', '\U{202F}',
     '\U{205F}', '\U{3000}'}

  predicate IsSpace(c: char) {
    c in SpaceChars
  }

  /** No hexadecimal digit is white space, a sign, or the 'x' of a radix prefix. */
  lemma HexDigitIsNotSpace(c: char)
    requires IsHexDigit(c)
    ensures !IsSpace(c) && c != '+' && c != 'x' && c != 'X'
  {
  }

  /** `s` without its leading white space. */
  function TrimStart(s: string): string {
    if |s| > 0 && IsSpace(s[0]) then TrimStart(s[1..]) else s
  }

  /** `s` without its trailing white space. */
  function TrimEnd(s: string): string {
    if |s| > 0 && IsSpace(s[|s| - 1]) then TrimEnd(s[..|s| - 1]) else s
  }

  /**
   * Trimming the start removes exactly the white space that leads `s`: the
   * result is a suffix of `s`, everything before it is white space, and it
   * does not start with white space.
   */
  lemma {:induction false} TrimStartRemovesLeadingSpace(s: string)
    ensures var r := TrimStart(s);
      && |r| <= |s| && r == s[|s| - |r|..]
      && (forall i :: 0 <= i < |s| - |r| ==> IsSpace(s[i]))
      && (|r| > 0 ==> !IsSpace(r[0]))
  {
    if |s| > 0 && IsSpace(s[0]) {
      TrimStartRemovesLeadingSpace(s[1..]);
    }
  }

  /**
   * Trimming the end removes exactly the white space that ends `s`: the
   * result is a prefix of `s`, everything after it is white space, and it
   * does not end with white space.
   */
  lemma {:induction false} TrimEndRemovesTrailingSpace(s: string)
    ensures var r := TrimEnd(s);
      && |r| <= |s| && r == s[..|r|]
      && (forall i :: |r| <= i < |s| ==> IsSpace(s[i]))
      && (|r| > 0 ==> !IsSpace(r[|r| - 1]))
  {
    if |s| > 0 && IsSpace(s[|s| - 1]) {
      TrimEndRemovesTrailingSpace(s[..|s| - 1]);
    }
  }

  /** `token` without the optional '+' sign that may lead a number. */
  function WithoutPlus(token: string): string {
    if |token| > 0 && token[0] == '+' then token[1..] else token
  }

  /** The digits of `token` once an optional "0x" or "0X" prefix is removed. */
  function WithoutRadixPrefix(token: string): string {
    if |token| >= 2 && token[0] == '0' && (token[1] == 'x' || token[1] == 'X') then token[2..]
    else token
  }

  /**
   * The part of a token that must be hexadecimal digits: what is left after
   * leading and trailing white space, a '+' sign and a "0x"/"0X" prefix,
   * in that order, are taken off.
   */
  function NumeralDigits(token: string): string {
    WithoutRadixPrefix(WithoutPlus(TrimEnd(TrimStart(token))))
  }

  /**
   * `QString::toUInt(&ok, 16)` on one token: optional white space, an
   * optional '+', an optional "0x"/"0X" prefix and at least one hexadecimal
   * digit, then optional white space; the value must fit an unsigned 32-bit
   * int. Anything else fails (None).
   */
  function ToUIntBase16(token: string): (r: Option<nat>)
    ensures r.Some? ==> r.value <= 0xFFFF_FFFF
    ensures r.Some? <==> |NumeralDigits(token)| > 0 && AllHexDigits(NumeralDigits(token))
                         && HexValue(NumeralDigits(token)) <= 0xFFFF_FFFF
    ensures r.Some? ==> r.value == HexValue(NumeralDigits(token))
  {
    var digits := NumeralDigits(token);
    if |digits| == 0 || !AllHexDigits(digits) then None
    else if HexValue(digits) > 0xFFFF_FFFF then None
    else Some(HexValue(digits))
  }

  /** A newline after the digits is white space, which `toUInt` ignores. */
  lemma TrailingNewlineIsIgnored()
    ensures ToUIntBase16("40\n") == Some(0x40)
  {
    assert TrimStart("40\n") == "40\n";
    assert TrimEnd("40\n") == TrimEnd("40") == "40";
    assert WithoutPlus("40") == "40" && WithoutRadixPrefix("40") == "40";
    assert "40"[..1] == "4" && "4"[..0] == "";
    assert HexValue("4") == 4;
  }

  /** Leading white space, a '+' and an upper-case radix prefix are accepted. */
  lemma SignAndPrefixAreAccepted()
    ensures ToUIntBase16("\t+0X3c") == Some(0x3C)
  {
    assert TrimStart("\t+0X3c") == TrimStart("+0X3c") == "+0X3c";
    assert TrimEnd("+0X3c") == "+0X3c";
    assert WithoutPlus("+0X3c") == "0X3c";
    assert WithoutRadixPrefix("0X3c") == "3c";
    assert "3c"[..1] == "3" && "3"[..0] == "";
    assert HexValue("3") == 3;
  }

  /** A '-' sign is refused: the reading is unsigned. */
  lemma MinusIsRefused()
    ensures ToUIntBase16("-1") == None
  {
    assert TrimStart("-1") == "-1" && TrimEnd("-1") == "-1";
    assert !IsHexDigit("-1"[0]);
  }

  /** A radix prefix with no digits after it is refused. */
  lemma BarePrefixIsRefused()
    ensures ToUIntBase16("0x") == None
  {
    assert TrimStart("0x") == "0x" && TrimEnd("0x") == "0x";
  }

  /** White space inside the number is refused. */
  lemma InnerSpaceIsRefused()
    ensures ToUIntBase16("4\t0") == None
  {
    assert TrimStart("4\t0") == "4\t0" && TrimEnd("4\t0") == "4\t0";
    assert !IsHexDigit("4\t0"[1]);
  }

  /** Every two-digit rendering of a byte reads back, as a base-16 number, to that byte. */
  lemma HexRoundTrip(b: Byte)
    ensures ToUIntBase16(Hex2(b)) == Some(b as nat)
  {
    var s := Hex2(b);
    TwoDigitToken(s);
    assert DigitValue(s[0]) * 16 + DigitValue(s[1]) == b as int;
  }

  /** A token of two hex digits reads as the number they spell, high digit first. */
  lemma TwoDigitToken(s: string)
    requires |s| == 2 && IsHexDigit(s[0]) && IsHexDigit(s[1])
    ensures ToUIntBase16(s) == Some(DigitValue(s[0]) * 16 + DigitValue(s[1]))
  {
    HexDigitIsNotSpace(s[0]);
    HexDigitIsNotSpace(s[1]);
    assert TrimStart(s) == s;
    assert TrimEnd(s) == s;
    assert NumeralDigits(s) == s;
    var high := s[..1];
    assert high == [s[0]] && high[..0] == [];
    assert HexValue(high) == DigitValue(s[0]);
    assert HexValue(s) == HexValue(high) * 16 + DigitValue(s[1]);
  }

  /** A rendered byte is a non-empty token without spaces, so splitting on spaces keeps it whole. */
  lemma HexTokenHasNoSpace(b: Byte)
    ensures |Hex2(b)| > 0 && ' ' !in Hex2(b)
  {
    var s := Hex2(b);
    assert s == [s[0], s[1]];
  }
}
