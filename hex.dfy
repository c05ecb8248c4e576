/** Bytes and their hexadecimal spelling: Python's `bytes.hex().upper()` (used by the
    driver to name a tag) and `bytes.fromhex` (used by the mock readers to turn the
    tag table into bytes). */
module Hex {
  import opened Wrappers

  /** A Python byte value: an int in 0..255. */
  type Byte = b: int | 0 <= b < 256

  const Digits: string := "0123456789ABCDEF"

  function DigitChar(v: int): (c: char)
    requires 0 <= v < 16
  {
    Digits[v]
  }

  /** The value of one hexadecimal digit of either case, as `bytes.fromhex` reads it. */
  function DigitValue(c: char): (r: Option<int>)
    ensures r.Some? ==> 0 <= r.value < 16
  {
    if '0' <= c <= '9' then Some(c as int - '0' as int)
    else if 'A' <= c <= 'F' then Some(c as int - 'A' as int + 10)
    else if 'a' <= c <= 'f' then Some(c as int - 'a' as int + 10)
    else None
  }

  /** `bytes(b).hex().upper()`: two upper-case digits per byte, high nibble first. */
  function HexUpper(b: seq<Byte>): (s: string)
  {
    if b == [] then ""
    else [DigitChar(b[0] / 16), DigitChar(b[0] % 16)] + HexUpper(b[1..])
  }

  predicate IsUpperHexDigit(c: char)
  {
    '0' <= c <= '9' || 'A' <= c <= 'F'
  }

  /** `bytes.fromhex(s)` on a string without blanks: None where Python raises ValueError
      (an odd number of digits, or a character that is not a hexadecimal digit). */
  function FromHex(s: string): (r: Option<seq<Byte>>)
    decreases |s|
  {
    if s == [] then Some([])
    else if |s| == 1 then None
    else match (DigitValue(s[0]), DigitValue(s[1]), FromHex(s[2..]))
      case (Some(h), Some(l), Some(rest)) => Some([h * 16 + l] + rest)
      case _ => None
  }

  lemma {:induction false} HexUpperShape(b: seq<Byte>)
    ensures |HexUpper(b)| == 2 * |b|
    ensures forall i :: 0 <= i < |HexUpper(b)| ==> IsUpperHexDigit(HexUpper(b)[i])
  {
    if b != [] {
      HexUpperShape(b[1..]);
      var s := HexUpper(b);
      assert s == [DigitChar(b[0] / 16), DigitChar(b[0] % 16)] + HexUpper(b[1..]);
      forall i | 0 <= i < |s| ensures IsUpperHexDigit(s[i]) {
        if i >= 2 {
          assert s[i] == HexUpper(b[1..])[i - 2];
        }
      }
    }
  }

  lemma DigitRoundTrip(v: int)
    requires 0 <= v < 16
    ensures DigitValue(DigitChar(v)) == Some(v)
  {
    assert Digits[v] == "0123456789ABCDEF"[v];
  }

  /** Splitting a byte into nibbles and joining them again are inverse. */
  lemma Nibbles(v: Byte, h: int, l: int)
    requires 0 <= h < 16 && 0 <= l < 16
    ensures v == h * 16 + l <==> (h == v / 16 && l == v % 16)
  {
  }

  lemma UpperDigitRoundTrip(c: char)
    requires IsUpperHexDigit(c)
    ensures DigitValue(c).Some? && DigitChar(DigitValue(c).value) == c
  {
    assert Digits[DigitValue(c).value] == "0123456789ABCDEF"[DigitValue(c).value];
  }

  lemma HexUpperCons(v: Byte, tail: seq<Byte>)
    ensures HexUpper([v] + tail) == [DigitChar(v / 16), DigitChar(v % 16)] + HexUpper(tail)
  {
    assert ([v] + tail)[1..] == tail;
  }

  lemma FromHexCons(hi: char, lo: char, t: string)
    requires DigitValue(hi).Some? && DigitValue(lo).Some? && FromHex(t).Some?
    ensures FromHex([hi, lo] + t) == Some([DigitValue(hi).value * 16 + DigitValue(lo).value] + FromHex(t).value)
  {
    assert ([hi, lo] + t)[2..] == t;
  }

  /** Reading back what the driver writes gives the bytes it started from. */
  lemma {:induction false} FromHexOfHexUpper(b: seq<Byte>)
    ensures FromHex(HexUpper(b)) == Some(b)
  {
    if b != [] {
      var h, l := b[0] / 16, b[0] % 16;
      DigitRoundTrip(h);
      DigitRoundTrip(l);
      Nibbles(b[0], h, l);
      FromHexOfHexUpper(b[1..]);
      FromHexCons(DigitChar(h), DigitChar(l), HexUpper(b[1..]));
      assert [b[0]] + b[1..] == b;
    }
  }

  /** An upper-case hex string read by `bytes.fromhex` and spelled again by
      `.hex().upper()` comes back unchanged. */
  lemma {:induction false} HexUpperOfFromHex(s: string)
    requires |s| % 2 == 0
    requires forall i :: 0 <= i < |s| ==> IsUpperHexDigit(s[i])
    ensures FromHex(s).Some?
    ensures HexUpper(FromHex(s).value) == s
  {
    if s != [] {
      HexUpperOfFromHex(s[2..]);
      assert IsUpperHexDigit(s[0]) && IsUpperHexDigit(s[1]);
      PairBack(s[0], s[1], s[2..]);
      assert s == [s[0], s[1]] + s[2..];
    }
  }

  /** One step of `HexUpperOfFromHex`: two upper-case digits in front of a string that
      reads back unchanged. */
  lemma PairBack(hi: char, lo: char, t: string)
    requires IsUpperHexDigit(hi) && IsUpperHexDigit(lo)
    requires FromHex(t).Some? && HexUpper(FromHex(t).value) == t
    ensures FromHex([hi, lo] + t).Some? && HexUpper(FromHex([hi, lo] + t).value) == [hi, lo] + t
  {
    UpperDigitRoundTrip(hi);
    UpperDigitRoundTrip(lo);
    var h := DigitValue(hi).value;
    var l := DigitValue(lo).value;
    var v: Byte := h * 16 + l;
    Nibbles(v, h, l);
    assert DigitChar(v / 16) == hi && DigitChar(v % 16) == lo;
    var tail := FromHex(t).value;
    FromHexCons(hi, lo, t);
    assert FromHex([hi, lo] + t).value == [v] + tail;
    HexUpperCons(v, tail);
  }
}
