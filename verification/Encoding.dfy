/**
 How numbers and byte strings are written into a JSON file and read back: hexadecimal digits and
 decimal integers.
 */
module Encoding {
  import opened Common

  const DIGITS := "0123456789abcdef"

  function DigitValue(c: char): Option<nat>
  {
    if '0' <= c <= '9' then Some((c - '0') as nat)
    else if 'a' <= c <= 'f' then Some((c - 'a') as nat + 10)
    else if 'A' <= c <= 'F' then Some((c - 'A') as nat + 10)
    else None
  }

  lemma DigitsHaveTheirValues(d: nat)
    requires d < 16
    ensures DigitValue(DIGITS[d]) == Some(d) && !IsSpace(DIGITS[d])
  {
  }

  predicate IsSpace(c: char)
  {
    c == ' ' || '\t' <= c <= '\r'
  }

  /** Pairs of digits of either case, with white space between pairs ignored. */
  function FromHex(s: string): Option<Bytes>
  {
    if s == "" then Some([])
    else if IsSpace(s[0]) then FromHex(s[1..])
    else if |s| == 1 then None
    else
      var hi, lo, rest := DigitValue(s[0]), DigitValue(s[1]), FromHex(s[2..]);
      if hi.Some? && lo.Some? && rest.Some? && hi.value < 16 && lo.value < 16
      then Some([hi.value * 16 + lo.value] + rest.value) else None
  }

  /** Two lower-case digits a byte; reading them gives the bytes back. */
  function Hex(b: Bytes): (s: string)
    ensures FromHex(s) == Some(b)
  {
    if b == [] then ""
    else
      var hi, lo, rest := b[0] / 16, b[0] % 16, Hex(b[1..]);
      var s := [DIGITS[hi], DIGITS[lo]] + rest;
      DigitsHaveTheirValues(hi);
      DigitsHaveTheirValues(lo);
      assert s[2..] == rest;
      assert [hi * 16 + lo] + b[1..] == b;
      s
  }

  /** Reading minds neither the case of digits nor white space between pairs. */
  lemma {:induction false} HexIsReadInAnyDress(b: Bytes, spaces: seq<nat>)
    requires |spaces| == |b|
    ensures FromHex(Dressed(b, spaces)) == Some(b)
  {
    if b != [] {
      HexIsReadInAnyDress(b[1..], spaces[1..]);
      var rest := Dressed(b[1..], spaces[1..]);
      OneUpperPair(b[0], rest);
      assert [b[0]] + b[1..] == b;
      LeadingSpaces(spaces[0], [UPPER_DIGITS[b[0] / 16], UPPER_DIGITS[b[0] % 16]] + rest);
    }
  }

  lemma OneUpperPair(byte: Byte, rest: string)
    requires FromHex(rest).Some?
    ensures FromHex([UPPER_DIGITS[byte / 16], UPPER_DIGITS[byte % 16]] + rest) == Some([byte] + FromHex(rest).value)
  {
    var hi, lo := byte / 16, byte % 16;
    UpperDigitsHaveTheirValues(hi);
    UpperDigitsHaveTheirValues(lo);
    PairFirst(UPPER_DIGITS[hi], UPPER_DIGITS[lo], hi, lo, rest);
    assert hi * 16 + lo == byte;
  }

  lemma PairFirst(a: char, b: char, hi: nat, lo: nat, rest: string)
    requires !IsSpace(a) && DigitValue(a) == Some(hi) && DigitValue(b) == Some(lo) && hi < 16 && lo < 16
    requires FromHex(rest).Some?
    ensures FromHex([a, b] + rest) == Some([hi * 16 + lo] + FromHex(rest).value)
  {
    assert ([a, b] + rest)[2..] == rest;
  }

  const UPPER_DIGITS := "0123456789ABCDEF"

  lemma UpperDigitsHaveTheirValues(d: nat)
    requires d < 16
    ensures DigitValue(UPPER_DIGITS[d]) == Some(d) && !IsSpace(UPPER_DIGITS[d])
  {
  }

  /** Upper-case digits, with so many spaces before each pair. */
  function Dressed(b: Bytes, spaces: seq<nat>): string
    requires |spaces| == |b|
  {
    if b == [] then ""
    else seq(spaces[0], i => ' ') + ([UPPER_DIGITS[b[0] / 16], UPPER_DIGITS[b[0] % 16]] + Dressed(b[1..], spaces[1..]))
  }

  lemma {:induction false} LeadingSpaces(n: nat, s: string)
    ensures FromHex(seq(n, i => ' ') + s) == FromHex(s)
  {
    if n == 0 {
      assert seq(0, i => ' ') + s == s;
    } else {
      LeadingSpaces(n - 1, s);
      var t := seq(n, i => ' ') + s;
      assert t[0] == ' ' && t[1..] == seq(n - 1, i => ' ') + s;
    }
  }

  /** Digits, with single underscores between them if one likes. */
  function ParseNat(s: string): Option<nat>
  {
    if s == "" then None
    else
      var last := s[|s| - 1];
      if !('0' <= last <= '9') then None
      else if |s| == 1 then Some((last - '0') as nat)
      else
        match ParseNat(if s[|s| - 2] == '_' then s[..|s| - 2] else s[..|s| - 1])
        case None => None
        case Some(n) => Some(n * 10 + (last - '0') as nat)
  }

  lemma OneDigitMore(s: string, n: nat, d: nat)
    requires s != "" && ParseNat(s) == Some(n) && d < 10
    ensures ParseNat(s + [DIGITS[d]]) == Some(n * 10 + d)
  {
    DecimalDigit(d);
    var t := s + [DIGITS[d]];
    assert t[..|t| - 1] == s && t[|t| - 1] == DIGITS[d] && t[|t| - 2] == s[|s| - 1];
  }

  lemma DecimalDigit(d: nat)
    requires d < 10
    ensures '0' <= DIGITS[d] <= '9' && (DIGITS[d] - '0') as nat == d
  {
  }

  function DecimalNat(n: nat): (s: string)
    ensures s != "" && ParseNat(s) == Some(n) && '0' <= s[0] <= '9' && '0' <= s[|s| - 1] <= '9'
  {
    if n < 10 then
      DecimalDigit(n);
      [DIGITS[n]]
    else
      var s := DecimalNat(n / 10);
      OneDigitMore(s, n / 10, n % 10);
      DecimalDigit(n % 10);
      assert n / 10 * 10 + n % 10 == n;
      s + [DIGITS[n % 10]]
  }

  /** The text without white space at either end. */
  function Stripped(s: string): string
  {
    if s == "" then ""
    else if IsSpace(s[0]) then Stripped(s[1..])
    else if IsSpace(s[|s| - 1]) then Stripped(s[..|s| - 1])
    else s
  }

  /** A sign, if any, and digits, with white space around them ignored. */
  function ParseInt(text: string): Option<int>
  {
    var s := Stripped(text);
    if s == "" then None
    else if s[0] == '-' then
      var n := ParseNat(s[1..]);
      if n.None? then None else Some(-(n.value as int))
    else if s[0] == '+' then ParseNat(s[1..])
    else ParseNat(s)
  }

  /** Different integers are written differently: reading gives the integer back. */
  function Decimal(n: int): (s: string)
    ensures ParseInt(s) == Some(n)
  {
    if n < 0 then
      var digits := DecimalNat(-n);
      assert ("-" + digits)[1..] == digits;
      "-" + digits
    else DecimalNat(n)
  }
}
