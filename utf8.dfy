/** Bytes and the UTF-8 encoding `str.encode("utf-8")` applies to text. */
module Utf8 {

  type Byte = x: int | 0 <= x < 256

  /**
   * The UTF-8 encoding of one Unicode scalar value: one byte below 0x80,
   * otherwise a lead byte and continuation bytes, all of them at least 0x80.
   */
  function EncodeChar(c: char): (bs: seq<Byte>)
    ensures 1 <= |bs| <= 4
    ensures |bs| == 1 <==> (c as int) < 0x80
    ensures |bs| == 1 ==> bs[0] == c as int
    ensures |bs| > 1 ==> forall k :: 0 <= k < |bs| ==> 0x80 <= bs[k]
  {
    var n := c as int;
    if n < 0x80 then [n]
    else if n < 0x800 then [0xC0 + n / 64, 0x80 + n % 64]
    else if n < 0x1_0000 then [0xE0 + n / 4096, 0x80 + (n / 64) % 64, 0x80 + n % 64]
    else [0xF0 + n / 262144, 0x80 + (n / 4096) % 64, 0x80 + (n / 64) % 64, 0x80 + n % 64]
  }

  /** The length of the encoding that starts with lead byte `b`. */
  function SequenceLength(b: Byte): nat {
    if b < 0xC0 then 1 else if b < 0xE0 then 2 else if b < 0xF0 then 3 else 4
  }

  /** The code point a lead byte and its continuation bytes spell. */
  function CodePoint(bs: seq<Byte>): int
    requires 1 <= |bs| <= 4
  {
    var b0: int := bs[0];
    if |bs| == 1 then b0
    else
      var lead := if |bs| == 2 then b0 - 0xC0 else if |bs| == 3 then b0 - 0xE0 else b0 - 0xF0;
      Continue(lead, bs[1..])
  }

  /** The value built from `acc` by appending the six payload bits of each continuation byte. */
  function Continue(acc: int, cs: seq<Byte>): int
    decreases |cs|
  {
    if cs == [] then acc else Continue(acc * 64 + (cs[0] as int - 0x80), cs[1..])
  }

  /** The code points that are Unicode scalar values, the values of `char`. */
  predicate IsScalarValue(n: int) {
    (0 <= n < 0xD800) || (0xE000 <= n < 0x11_0000)
  }

  const ReplacementChar: char := '\U{FFFD}'

  /**
   * The inverse of `Encode` that reads the bytes back: each lead byte says
   * how many bytes its character takes. It undoes `Encode` (`DecodeEncode`)
   * and does not check other byte sequences: an overlong form or a stray
   * continuation byte still decodes to some character, and only a cut-off
   * sequence or a value outside the scalar values reads as U+FFFD.
   */
  function Decode(bs: seq<Byte>): string
    decreases |bs|
  {
    if bs == [] then []
    else
      var n := SequenceLength(bs[0]);
      if |bs| < n then [ReplacementChar]
      else
        var p := CodePoint(bs[..n]);
        [if IsScalarValue(p) then p as char else ReplacementChar] + Decode(bs[n..])
  }

  /** The lead byte of a character's encoding gives its length, and the bytes give back its code point. */
  lemma EncodeCharDecodes(c: char)
    ensures var bs := EncodeChar(c);
      SequenceLength(bs[0]) == |bs| && CodePoint(bs) == c as int
  {
    var n := c as int;
    var bs := EncodeChar(c);
    if n < 0x80 {
    } else if n < 0x800 {
      assert Continue(n / 64, [0x80 + n % 64]) == n;
    } else if n < 0x1_0000 {
      var a := n / 64;
      assert n / 4096 == a / 64 && (n / 64) % 64 == a % 64;
      var cs := bs[1..];
      assert cs[1..] == [0x80 + n % 64];
      assert Continue(a / 64, cs) == Continue(a, [0x80 + n % 64]) == n;
    } else {
      var a := n / 64;
      var b := a / 64;
      assert n / 4096 == b && n / 262144 == b / 64 && (n / 4096) % 64 == b % 64 && (n / 64) % 64 == a % 64;
      var cs := bs[1..];
      assert cs[1..] == [0x80 + a % 64, 0x80 + n % 64] && cs[1..][1..] == [0x80 + n % 64];
      assert Continue(b / 64, cs) == Continue(b, cs[1..]) == Continue(a, [0x80 + n % 64]) == n;
    }
  }

  /** `s.encode("utf-8")`: the characters' encodings, one after the other. */
  function Encode(s: string): (bs: seq<Byte>)
    ensures |s| <= |bs|
  {
    if s == [] then [] else EncodeChar(s[0]) + Encode(s[1..])
  }

  /** Text entirely in ASCII encodes to its own character codes. */
  lemma {:induction false} EncodeAscii(s: string)
    requires forall k :: 0 <= k < |s| ==> (s[k] as int) < 0x80
    ensures |Encode(s)| == |s|
    ensures forall k :: 0 <= k < |s| ==> Encode(s)[k] == s[k] as int
  {
    if s != [] {
      EncodeAscii(s[1..]);
    }
  }

  /** Encoding distributes over concatenation. */
  lemma {:induction false} EncodeAppend(a: string, b: string)
    ensures Encode(a + b) == Encode(a) + Encode(b)
  {
    if a != [] {
      assert (a + b)[1..] == a[1..] + b;
      EncodeAppend(a[1..], b);
    } else {
      assert a + b == b;
    }
  }

  /** Decoding gives the text back: the encoding loses nothing. */
  lemma {:induction false} DecodeEncode(s: string)
    ensures Decode(Encode(s)) == s
  {
    if s != [] {
      var e := EncodeChar(s[0]);
      EncodeCharDecodes(s[0]);
      DecodeEncode(s[1..]);
      var bs := Encode(s);
      assert bs == e + Encode(s[1..]);
      assert bs[..|e|] == e && bs[|e|..] == Encode(s[1..]);
      assert s == [s[0]] + s[1..];
    }
  }

  /** Different texts have different encodings. */
  lemma EncodeIsInjective(s: string, t: string)
    ensures Encode(s) == Encode(t) ==> s == t
  {
    DecodeEncode(s);
    DecodeEncode(t);
  }
}
