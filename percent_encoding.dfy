/**
 * `urllib.parse.quote` with its default `safe='/'`, as `_build_url` applies
 * it to the session id: the text is encoded as UTF-8, and each byte is kept
 * when it is an unreserved character of section 2.3 of RFC 3986 or `/`, and
 * otherwise written as `%` and two upper-case hexadecimal digits
 * (section 2.1 of RFC 3986).
 */
module PercentEncoding {
  import opened Wrappers
  import opened Utf8

  /** The unreserved characters of section 2.3 of RFC 3986 (`_ALWAYS_SAFE`). */
  predicate IsUnreserved(c: char) {
    ('a' <= c <= 'z') || ('A' <= c <= 'Z') || ('0' <= c <= '9') || c == '_' || c == '.' || c == '-' || c == '~'
  }

  /** The characters `quote` leaves as they are: the unreserved ones and `/`. */
  predicate IsKept(c: char) {
    IsUnreserved(c) || c == '/'
  }

  /** A byte that stands for a kept ASCII character. */
  predicate IsKeptByte(b: Byte) {
    b < 0x80 && IsKept(b as char)
  }

  const HexDigits: string := "0123456789ABCDEF"

  /** The value of a hexadecimal digit, in either case. */
  function HexValue(c: char): (v: Option<nat>)
    ensures v.Some? ==> v.value < 16
  {
    if '0' <= c <= '9' then Some(c as int - '0' as int)
    else if 'A' <= c <= 'F' then Some(c as int - 'A' as int + 10)
    else if 'a' <= c <= 'f' then Some(c as int - 'a' as int + 10)
    else None
  }

  /** The digit `HexDigits` writes for a value is read back as that value. */
  lemma HexDigitRoundTrip(v: nat)
    requires v < 16
    ensures HexValue(HexDigits[v]) == Some(v)
  {
  }

  /** One byte as `quote` writes it: itself when kept, else a `%XX` triple. */
  function QuoteByte(b: Byte): (t: string)
    ensures IsKeptByte(b) ==> t == [b as char]
    ensures !IsKeptByte(b) ==> |t| == 3 && t[0] == '%' && t[1] == HexDigits[b / 16] && t[2] == HexDigits[b % 16]
  {
    if IsKeptByte(b) then [b as char] else ['%', HexDigits[b / 16], HexDigits[b % 16]]
  }

  /** `quote_from_bytes`: the bytes written one after the other. */
  function QuoteBytes(bs: seq<Byte>): (t: string)
    ensures |bs| <= |t|
  {
    if bs == [] then [] else QuoteByte(bs[0]) + QuoteBytes(bs[1..])
  }

  /** `urllib.parse.quote(s)`: reading the result back gives the text's UTF-8 bytes. */
  function Quote(s: string): (r: string)
    ensures |s| <= |r|
    ensures Unquote(r) == Some(Encode(s))
  {
    QuoteRoundTrip(Encode(s));
    QuoteBytes(Encode(s))
  }

  /**
   * The decoding that undoes `QuoteBytes`: each kept character stands for its
   * own code, each `%XX` for the byte it spells; anything else is refused.
   */
  function Unquote(t: string): (r: Option<seq<Byte>>)
    decreases |t|
  {
    if t == [] then Some([])
    else if t[0] == '%' then
      if 3 <= |t| && HexValue(t[1]).Some? && HexValue(t[2]).Some? then
        match Unquote(t[3..])
        case Some(rest) => Some([HexValue(t[1]).value * 16 + HexValue(t[2]).value] + rest)
        case None => None
      else None
    else if IsKept(t[0]) then
      match Unquote(t[1..])
      case Some(rest) => Some([t[0] as int] + rest)
      case None => None
    else None
  }

  /** An upper-case hexadecimal digit, as `quote` writes them. */
  predicate IsUpperHex(c: char) {
    ('0' <= c <= '9') || ('A' <= c <= 'F')
  }

  /** Text made of kept characters and `%XX` triples with upper-case digits. */
  ghost predicate IsPercentEncoded(t: string)
    decreases |t|
  {
    || t == []
    || (IsKept(t[0]) && IsPercentEncoded(t[1..]))
    || (3 <= |t| && t[0] == '%' && IsUpperHex(t[1]) && IsUpperHex(t[2]) && IsPercentEncoded(t[3..]))
  }

  /** Quoting a concatenation quotes the parts. */
  lemma {:induction false} QuoteBytesAppend(xs: seq<Byte>, ys: seq<Byte>)
    ensures QuoteBytes(xs + ys) == QuoteBytes(xs) + QuoteBytes(ys)
  {
    if xs != [] {
      assert (xs + ys)[0] == xs[0] && (xs + ys)[1..] == xs[1..] + ys;
      QuoteBytesAppend(xs[1..], ys);
      calc {
        QuoteBytes(xs + ys);
        QuoteByte(xs[0]) + QuoteBytes(xs[1..] + ys);
        QuoteByte(xs[0]) + (QuoteBytes(xs[1..]) + QuoteBytes(ys));
        (QuoteByte(xs[0]) + QuoteBytes(xs[1..])) + QuoteBytes(ys);
      }
    } else {
      assert xs + ys == ys;
    }
  }

  /** What `quote` writes is percent-encoded text: kept characters and `%XX` triples. */
  lemma {:induction false} QuoteIsPercentEncoded(bs: seq<Byte>)
    ensures IsPercentEncoded(QuoteBytes(bs))
  {
    if bs != [] {
      var head := QuoteByte(bs[0]);
      var rest := QuoteBytes(bs[1..]);
      QuoteIsPercentEncoded(bs[1..]);
      var t := head + rest;
      if IsKeptByte(bs[0]) {
        assert t[1..] == rest;
      } else {
        assert t[3..] == rest;
      }
    }
  }

  /** Every character `quote` writes is a kept character or `%`. */
  lemma {:induction false} QuoteAlphabet(bs: seq<Byte>)
    ensures forall k :: 0 <= k < |QuoteBytes(bs)| ==> IsKept(QuoteBytes(bs)[k]) || QuoteBytes(bs)[k] == '%'
  {
    if bs != [] {
      QuoteAlphabet(bs[1..]);
      var head := QuoteByte(bs[0]);
      if !IsKeptByte(bs[0]) {
        assert IsKept(head[1]) && IsKept(head[2]) by {
          assert HexDigits[bs[0] / 16] in HexDigits && HexDigits[bs[0] % 16] in HexDigits;
        }
      }
    }
  }

  /** Quoting loses nothing: decoding the quoted text gives back the bytes. */
  lemma {:induction false} QuoteRoundTrip(bs: seq<Byte>)
    ensures Unquote(QuoteBytes(bs)) == Some(bs)
  {
    if bs != [] {
      var b := bs[0];
      var head := QuoteByte(b);
      var rest := QuoteBytes(bs[1..]);
      QuoteRoundTrip(bs[1..]);
      var t := head + rest;
      if IsKeptByte(b) {
        assert t[0] == b as char && t[1..] == rest;
        assert Unquote(t) == Some([b] + bs[1..]);
      } else {
        HexDigitRoundTrip(b / 16);
        HexDigitRoundTrip(b % 16);
        assert t[0] == '%' && t[1] == HexDigits[b / 16] && t[2] == HexDigits[b % 16] && t[3..] == rest;
        assert Unquote(t) == Some([b / 16 * 16 + b % 16] + bs[1..]);
      }
      assert bs == [b] + bs[1..];
    }
  }

  /** Different texts are quoted differently. */
  lemma QuoteIsInjective(s: string, t: string)
    ensures Quote(s) == Quote(t) ==> s == t
  {
    EncodeIsInjective(s, t);
  }

  /** Quoting text is quoting its first character's bytes, then the rest. */
  lemma QuoteCons(s: string)
    requires s != []
    ensures Quote(s) == QuoteBytes(EncodeChar(s[0])) + Quote(s[1..])
  {
    QuoteBytesAppend(EncodeChar(s[0]), Encode(s[1..]));
  }

  /** Text of kept characters is left unchanged by `quote`. */
  lemma {:induction false} QuoteKeepsKeptText(s: string)
    requires forall k :: 0 <= k < |s| ==> IsKept(s[k])
    ensures Quote(s) == s
  {
    if s != [] {
      QuoteCons(s);
      assert forall k :: 0 <= k < |s| - 1 ==> IsKept(s[1..][k]);
      QuoteKeepsKeptText(s[1..]);
      assert QuoteBytes(EncodeChar(s[0])) == [s[0]];
      assert s == [s[0]] + s[1..];
    }
  }

  /** Text that `quote` leaves unchanged holds kept characters only. */
  lemma {:induction false} UnchangedTextIsKept(s: string)
    requires Quote(s) == s
    ensures forall k :: 0 <= k < |s| ==> IsKept(s[k])
  {
    if s != [] {
      var bs := EncodeChar(s[0]);
      var head := QuoteBytes(bs);
      var tail := Quote(s[1..]);
      QuoteCons(s);
      assert |head| + |tail| == |s|;
      assert |head| == 1 && |bs| == 1;
      assert IsKeptByte(bs[0]);
      assert head == [s[0]] by {
        assert head[0] == (head + tail)[0] == s[0];
      }
      assert tail == s[1..] by {
        assert s == head + tail;
      }
      UnchangedTextIsKept(s[1..]);
      forall k | 0 <= k < |s| ensures IsKept(s[k]) {
        if 0 < k { assert s[k] == s[1..][k - 1]; }
      }
    }
  }

  /**
   * `quote` leaves text unchanged exactly when every character of it is kept;
   * any other character, ASCII or not, turns into at least one `%XX` triple.
   */
  lemma QuoteIsIdentityIffKept(s: string)
    ensures Quote(s) == s <==> forall k :: 0 <= k < |s| ==> IsKept(s[k])
  {
    if forall k :: 0 <= k < |s| ==> IsKept(s[k]) {
      QuoteKeepsKeptText(s);
    }
    if Quote(s) == s {
      UnchangedTextIsKept(s);
    }
  }

  /** A lower-case hexadecimal digit, as `str(uuid4())` writes them. */
  predicate IsLowerHex(c: char) {
    ('0' <= c <= '9') || ('a' <= c <= 'f')
  }

  /** The canonical text of a UUID: 32 lower-case hex digits in groups 8-4-4-4-12. */
  predicate IsUuidText(s: string) {
    && |s| == 36
    && forall k :: 0 <= k < 36 ==> if k == 8 || k == 13 || k == 18 || k == 23 then s[k] == '-' else IsLowerHex(s[k])
  }

  /** The default session id, a UUID, is not changed by quoting. */
  lemma UuidQuotedUnchanged(s: string)
    requires IsUuidText(s)
    ensures Quote(s) == s
  {
    QuoteIsIdentityIffKept(s);
  }
}
