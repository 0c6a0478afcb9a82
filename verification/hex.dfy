/** Credential generation: n random bytes rendered as 2n lower-case hex
    digits. The bytes themselves come from a cryptographic source and are an
    input here. */
module Hex {
  import opened Wrappers

  type byte = x: int | 0 <= x < 256

  const Digits := "0123456789abcdef"

  predicate IsHexDigit(c: char) {
    '0' <= c <= '9' || 'a' <= c <= 'f'
  }

  function DigitChar(d: int): (c: char)
    requires 0 <= d < 16
    ensures IsHexDigit(c)
  {
    Digits[d]
  }

  function DigitValue(c: char): (d: int)
    requires IsHexDigit(c)
    ensures 0 <= d < 16
  {
    if '0' <= c <= '9' then c as int - '0' as int else c as int - 'a' as int + 10
  }

  lemma DigitValueOfChar(d: int)
    requires 0 <= d < 16
    ensures DigitValue(DigitChar(d)) == d
  {
  }

  /** Two digits per byte, high nibble first. */
  function Encode(b: seq<byte>): (r: string)
    ensures |r| == 2 * |b|
    ensures forall i | 0 <= i < |r| :: IsHexDigit(r[i])
  {
    if b == [] then "" else [DigitChar(b[0] / 16), DigitChar(b[0] % 16)] + Encode(b[1..])
  }

  /** Reads a hex string back into bytes; odd length or a character that is
      not a lower-case hex digit is an error. */
  function Decode(s: string): (r: Option<seq<byte>>)
    ensures r.Some? ==> |s| == 2 * |r.value|
  {
    if s == [] then Some([])
    else if |s| == 1 || !IsHexDigit(s[0]) || !IsHexDigit(s[1]) then None
    else
      match Decode(s[2..])
      case None => None
      case Some(rest) => Some([DigitValue(s[0]) * 16 + DigitValue(s[1])] + rest)
  }

  /** Decoding reads the first two digits as one byte, then the rest. */
  lemma DecodeCons(x: char, y: char, rest: string)
    requires IsHexDigit(x) && IsHexDigit(y)
    ensures Decode([x, y] + rest) ==
      match Decode(rest)
      case None => None
      case Some(r) => Some([DigitValue(x) * 16 + DigitValue(y)] + r)
  {
    var s := [x, y] + rest;
    assert s[0] == x && s[1] == y && s[2..] == rest;
  }

  /** Encoding loses nothing: decoding gives the bytes back. */
  lemma {:induction false} DecodeEncode(b: seq<byte>)
    ensures Decode(Encode(b)) == Some(b)
  {
    if b != [] {
      var hi, lo := b[0] / 16, b[0] % 16;
      DecodeCons(DigitChar(hi), DigitChar(lo), Encode(b[1..]));
      DecodeEncode(b[1..]);
      DigitValueOfChar(hi);
      DigitValueOfChar(lo);
      assert [b[0]] + b[1..] == b;
    }
  }

  /** Hence distinct byte strings never give the same credential. */
  lemma EncodeInjective(a: seq<byte>, b: seq<byte>)
    requires Encode(a) == Encode(b)
    ensures a == b
  {
    DecodeEncode(a);
    DecodeEncode(b);
  }
}
