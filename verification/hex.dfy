/**
 * Hexadecimal text and the signature comparison of the launch-payload check:
 * Node's `digest('hex')` (lower-case encoding), `Buffer.from(s, 'hex')`
 * (decoding that stops at the first pair that is not two hex digits, so an
 * odd trailing digit is dropped) and the length-guarded comparison built on
 * `crypto.timingSafeEqual`.
 */
module Hex {

  type byte = x: int | 0 <= x < 256

  predicate IsHexDigit(c: char) {
    ('0' <= c <= '9') || ('a' <= c <= 'f') || ('A' <= c <= 'F')
  }

  function DigitValue(c: char): (v: nat)
    requires IsHexDigit(c)
    ensures v < 16
  {
    if '0' <= c <= '9' then c as int - '0' as int
    else if 'a' <= c <= 'f' then c as int - 'a' as int + 10
    else c as int - 'A' as int + 10
  }

  /** The lower-case digit for a nibble. */
  function LowerDigit(v: nat): (c: char)
    requires v < 16
    ensures IsHexDigit(c) && DigitValue(c) == v
  {
    if v < 10 then ('0' as int + v) as char else ('a' as int + v - 10) as char
  }

  /** `digest('hex')`: two lower-case digits per byte, high nibble first. */
  function HexEncode(bytes: seq<byte>): (s: string)
    ensures |s| == 2 * |bytes|
    ensures forall i :: 0 <= i < |s| ==> IsHexDigit(s[i]) && !('A' <= s[i] <= 'F')
  {
    if bytes == [] then []
    else [LowerDigit(bytes[0] / 16), LowerDigit(bytes[0] % 16)] + HexEncode(bytes[1..])
  }

  /** The byte a pair of hex digits spells, high nibble first. */
  function PairValue(hi: char, lo: char): byte
    requires IsHexDigit(hi) && IsHexDigit(lo)
  {
    16 * DigitValue(hi) + DigitValue(lo)
  }

  /** The two lower-case digits of a byte spell that byte. */
  lemma PairValueOfDigits(b: byte)
    ensures PairValue(LowerDigit(b / 16), LowerDigit(b % 16)) == b
  {
  }

  /** `Buffer.from(s, 'hex')`: one byte per leading pair of hex digits, up to the first pair that is not. */
  function HexDecode(s: string): (bytes: seq<byte>)
    ensures 2 * |bytes| <= |s|
    decreases |s|
  {
    if |s| >= 2 && IsHexDigit(s[0]) && IsHexDigit(s[1])
    then [PairValue(s[0], s[1])] + HexDecode(s[2..])
    else []
  }

  /** Byte `i` of `Buffer.from(s, 'hex')` is the one the digit pair at `2 * i` spells. */
  lemma {:induction false} HexDecodeByteAt(s: string, i: nat)
    requires i < |HexDecode(s)|
    ensures IsHexDigit(s[2 * i]) && IsHexDigit(s[2 * i + 1])
    ensures HexDecode(s)[i] == PairValue(s[2 * i], s[2 * i + 1])
    decreases i
  {
    var t := s[2..];
    assert HexDecode(s) == [PairValue(s[0], s[1])] + HexDecode(t);
    if i > 0 {
      HexDecodeByteAt(t, i - 1);
      var j := 2 * i;
      assert j - 2 == 2 * (i - 1);
      assert t[j - 2] == s[j] && t[j - 1] == s[j + 1];
    }
  }

  /**
   * `Buffer.from(s, 'hex')` stops only where it must: when two characters
   * follow the decoded part, they are not two hex digits. Otherwise at most
   * one odd trailing character is left over.
   */
  lemma {:induction false} HexDecodeStopsAtBadPair(s: string)
    ensures var n := 2 * |HexDecode(s)|;
            n + 1 < |s| ==> !(IsHexDigit(s[n]) && IsHexDigit(s[n + 1]))
    decreases |s|
  {
    if |s| >= 2 && IsHexDigit(s[0]) && IsHexDigit(s[1]) {
      var t := s[2..];
      HexDecodeStopsAtBadPair(t);
      assert HexDecode(s) == [PairValue(s[0], s[1])] + HexDecode(t);
      var n := 2 * |HexDecode(s)|;
      assert n - 2 == 2 * |HexDecode(t)|;
      if n + 1 < |s| {
        assert t[n - 2] == s[n] && t[n - 1] == s[n + 1];
      }
    }
  }

  /** Decoding reads back the first byte of an encoded digest and continues after its two digits. */
  lemma HexDecodeStep(d: seq<byte>, t: string)
    requires d != []
    ensures (HexEncode(d) + t)[2..] == HexEncode(d[1..]) + t
    ensures HexDecode(HexEncode(d) + t) == [d[0]] + HexDecode(HexEncode(d[1..]) + t)
  {
    var s := HexEncode(d) + t;
    var hi, lo := LowerDigit(d[0] / 16), LowerDigit(d[0] % 16);
    assert HexEncode(d) == [hi, lo] + HexEncode(d[1..]);
    assert s == [hi, lo] + (HexEncode(d[1..]) + t);
    assert s[0] == hi && s[1] == lo;
    assert s[2..] == HexEncode(d[1..]) + t;
    var rest := HexEncode(d[1..]) + t;
    assert IsHexDigit(s[0]) && IsHexDigit(s[1]);
    PairValueOfDigits(d[0]);
    assert HexDecode(s) == [PairValue(s[0], s[1])] + HexDecode(rest);
  }

  /** Decoding an encoded digest followed by any text yields the digest followed by the decoding of that text. */
  lemma {:induction false} HexDecodeAppend(d: seq<byte>, t: string)
    ensures HexDecode(HexEncode(d) + t) == d + HexDecode(t)
  {
    if d == [] {
      assert HexEncode(d) + t == t;
    } else {
      HexDecodeStep(d, t);
      HexDecodeAppend(d[1..], t);
      assert d == [d[0]] + d[1..];
    }
  }

  /** Hex decoding inverts hex encoding. */
  lemma HexRoundTrip(d: seq<byte>)
    ensures HexDecode(HexEncode(d)) == d
  {
    HexDecodeAppend(d, "");
    assert HexEncode(d) + "" == HexEncode(d);
  }

  /** Hex encoding is injective, so a hex digest determines the digest bytes. */
  lemma HexEncodeInjective(d1: seq<byte>, d2: seq<byte>)
    ensures HexEncode(d1) == HexEncode(d2) ==> d1 == d2
  {
    HexRoundTrip(d1);
    HexRoundTrip(d2);
  }

  /**
   * `crypto.timingSafeEqual` on two equally long buffers: every byte pair is
   * inspected, differences are folded into one flag, and there is no early exit.
   */
  method TimingSafeEqual(x: seq<byte>, y: seq<byte>) returns (eq: bool)
    requires |x| == |y|
    ensures eq <==> x == y
  {
    var differs := false;
    var i := 0;
    while i < |x|
      invariant 0 <= i <= |x|
      invariant differs <==> x[..i] != y[..i]
    {
      assert x[..i + 1] == x[..i] + [x[i]] && y[..i + 1] == y[..i] + [y[i]];
      differs := differs || x[i] != y[i];
      i := i + 1;
    }
    assert x[..i] == x && y[..i] == y;
    eq := !differs;
  }

  /**
   * `constantTimeEqual(a, b)`: false when the decoded buffers differ in length,
   * otherwise the byte-wise equality `timingSafeEqual` reports.
   */
  function ConstantTimeEqual(a: string, b: string): (eq: bool)
    ensures eq <==> HexDecode(a) == HexDecode(b)
    ensures |HexDecode(a)| != |HexDecode(b)| ==> !eq
  {
    var aBuf := HexDecode(a);
    var bBuf := HexDecode(b);
    if |aBuf| != |bBuf| then false else aBuf == bBuf
  }

  /**
   * `constantTimeEqual(a, b)` step by step: decode both, refuse a length
   * mismatch, and otherwise let `TimingSafeEqual` scan every byte. It
   * computes `ConstantTimeEqual`, the value the validator's model uses.
   */
  method CompareHexDigests(a: string, b: string) returns (eq: bool)
    ensures eq <==> HexDecode(a) == HexDecode(b)
    ensures eq == ConstantTimeEqual(a, b)
  {
    var aBuf := HexDecode(a);
    var bBuf := HexDecode(b);
    if |aBuf| != |bBuf| {
      return false;
    }
    eq := TimingSafeEqual(aBuf, bBuf);
  }

  /** A supplied hash matches an encoded digest exactly when it decodes to that digest. */
  lemma MatchesDigestIffDecodes(d: seq<byte>, hash: string)
    ensures ConstantTimeEqual(HexEncode(d), hash) <==> HexDecode(hash) == d
  {
    HexRoundTrip(d);
  }
}
