/**
 * The application/x-www-form-urlencoded serializer (section 5.2 of the
 * WHATWG URL Standard) that the `message` and `from` readers apply to the
 * stored text: `*`, `-`, `.`, `_`, ASCII letters and digits stay as they
 * are, a space becomes `+`, and every other character becomes the
 * percent-encoding of its UTF-8 bytes with upper-case hexadecimal digits
 * (section 2.1 of RFC 3986). Decode is the matching parser; it is not part
 * of the client and is here to state what the encoding preserves.
 */
module FormEncoding {
  import opened Wrappers
  import Utf8

  /** Characters the serializer leaves untouched. */
  predicate IsUnreserved(c: char) {
    ('a' <= c <= 'z') || ('A' <= c <= 'Z') || ('0' <= c <= '9') || c == '*' || c == '-' || c == '.' || c == '_'
  }

  predicate IsHexDigit(c: char) {
    ('0' <= c <= '9') || ('A' <= c <= 'F') || ('a' <= c <= 'f')
  }

  /** Everything the serializer can emit. */
  predicate IsEncodedChar(c: char) {
    IsUnreserved(c) || c == '+' || c == '%'
  }

  function HexValue(c: char): (v: nat)
    requires IsHexDigit(c)
    ensures v < 16
  {
    if '0' <= c <= '9' then c as int - '0' as int
    else if 'A' <= c <= 'F' then c as int - 'A' as int + 10
    else c as int - 'a' as int + 10
  }

  /** The upper-case hexadecimal digit for d. */
  function HexDigit(d: nat): (c: char)
    requires d < 16
    ensures IsHexDigit(c) && IsUnreserved(c) && HexValue(c) == d
    ensures '0' <= c <= '9' || 'A' <= c <= 'F'
  {
    if d < 10 then ('0' as int + d) as char else ('A' as int + d - 10) as char
  }

  /** `%` followed by the two upper-case hexadecimal digits of b. */
  function PercentByte(b: Utf8.Byte): (r: string)
    ensures |r| == 3 && r[0] == '%' && IsHexDigit(r[1]) && IsHexDigit(r[2])
    ensures 16 * HexValue(r[1]) + HexValue(r[2]) == b
    ensures ('0' <= r[1] <= '9' || 'A' <= r[1] <= 'F') && ('0' <= r[2] <= '9' || 'A' <= r[2] <= 'F')
    ensures forall i :: 0 <= i < |r| ==> IsEncodedChar(r[i])
  {
    ['%', HexDigit(b / 16), HexDigit(b % 16)]
  }

  function PercentBytes(bs: seq<Utf8.Byte>): (r: string)
    ensures |r| == 3 * |bs|
    ensures forall i :: 0 <= i < |r| ==> IsEncodedChar(r[i])
  {
    if bs == [] then [] else PercentByte(bs[0]) + PercentBytes(bs[1..])
  }

  function EncodeChar(c: char): (r: string)
    ensures IsUnreserved(c) ==> r == [c]
    ensures c == ' ' ==> r == "+"
    ensures forall i :: 0 <= i < |r| ==> IsEncodedChar(r[i])
  {
    if IsUnreserved(c) then [c]
    else if c == ' ' then "+"
    else PercentBytes(Utf8.EncodeChar(c))
  }

  /** The form encoding of s: its result is made only of unreserved characters, `+` and `%`. */
  function Encode(s: string): (r: string)
    ensures forall i :: 0 <= i < |r| ==> IsEncodedChar(r[i])
  {
    if s == [] then [] else EncodeChar(s[0]) + Encode(s[1..])
  }

  /**
   * The byte sequence a form value stands for: `+` is a space, `%` and two
   * hexadecimal digits is that byte, any other character its own UTF-8
   * bytes (a `%` not followed by two hexadecimal digits included).
   */
  function DecodeBytes(t: string): seq<Utf8.Byte>
    decreases |t|
  {
    if t == [] then []
    else if t[0] == '+' then [0x20] + DecodeBytes(t[1..])
    else if t[0] == '%' && |t| >= 3 && IsHexDigit(t[1]) && IsHexDigit(t[2]) then
      [16 * HexValue(t[1]) + HexValue(t[2])] + DecodeBytes(t[3..])
    else Utf8.EncodeChar(t[0]) + DecodeBytes(t[1..])
  }

  /** Parses a form value back to text; None when its bytes are not UTF-8. */
  function Decode(t: string): Option<string> {
    Utf8.Decode(DecodeBytes(t))
  }

  lemma DecodeBytesPercentByte(b: Utf8.Byte, rest: string)
    ensures DecodeBytes(PercentByte(b) + rest) == [b] + DecodeBytes(rest)
  {
    var t := PercentByte(b) + rest;
    assert t[0] == '%' && t[1] == PercentByte(b)[1] && t[2] == PercentByte(b)[2];
    assert t[3..] == rest;
  }

  lemma {:induction false} DecodeBytesPercent(bs: seq<Utf8.Byte>, rest: string)
    ensures DecodeBytes(PercentBytes(bs) + rest) == bs + DecodeBytes(rest)
  {
    if bs == [] {
      assert PercentBytes(bs) + rest == rest;
    } else {
      calc {
        DecodeBytes(PercentBytes(bs) + rest);
        { assert PercentBytes(bs) + rest == PercentByte(bs[0]) + (PercentBytes(bs[1..]) + rest); }
        DecodeBytes(PercentByte(bs[0]) + (PercentBytes(bs[1..]) + rest));
        { DecodeBytesPercentByte(bs[0], PercentBytes(bs[1..]) + rest); }
        [bs[0]] + DecodeBytes(PercentBytes(bs[1..]) + rest);
        { DecodeBytesPercent(bs[1..], rest); }
        [bs[0]] + (bs[1..] + DecodeBytes(rest));
        { assert bs == [bs[0]] + bs[1..]; }
        bs + DecodeBytes(rest);
      }
    }
  }

  /** Each encoded character stands for exactly the UTF-8 bytes of the original. */
  lemma DecodeBytesEncodeChar(c: char, rest: string)
    ensures DecodeBytes(EncodeChar(c) + rest) == Utf8.EncodeChar(c) + DecodeBytes(rest)
  {
    var t := EncodeChar(c) + rest;
    if IsUnreserved(c) {
      assert t[0] == c && t[1..] == rest;
    } else if c == ' ' {
      assert t[0] == '+' && t[1..] == rest;
    } else {
      DecodeBytesPercent(Utf8.EncodeChar(c), rest);
    }
  }

  lemma {:induction false} DecodeBytesEncode(s: string)
    ensures DecodeBytes(Encode(s)) == Utf8.Encode(s)
  {
    if s != [] {
      DecodeBytesEncodeChar(s[0], Encode(s[1..]));
      DecodeBytesEncode(s[1..]);
    }
  }

  /** Form decoding undoes the serializer: no text is lost or altered by encoding it. */
  lemma DecodeEncode(s: string)
    ensures Decode(Encode(s)) == Some(s)
  {
    DecodeBytesEncode(s);
    Utf8.DecodeEncode(s);
  }

  /** The encoding is injective: two texts read back the same only if they are the same. */
  lemma EncodeInjective(s: string, s': string)
    requires Encode(s) == Encode(s')
    ensures s == s'
  {
    DecodeEncode(s);
    DecodeEncode(s');
  }

  /** Text made of unreserved characters reads back unchanged. */
  lemma {:induction false} EncodeUnreserved(s: string)
    requires forall i :: 0 <= i < |s| ==> IsUnreserved(s[i])
    ensures Encode(s) == s
  {
    if s != [] {
      EncodeUnreserved(s[1..]);
      assert s == [s[0]] + s[1..];
    }
  }

  /** Encoding works character by character, so it distributes over concatenation. */
  lemma {:induction false} EncodeAppend(a: string, b: string)
    ensures Encode(a + b) == Encode(a) + Encode(b)
  {
    if a == [] {
      assert a + b == b;
    } else {
      assert (a + b)[1..] == a[1..] + b;
      EncodeAppend(a[1..], b);
    }
  }

  lemma EncodeExampleHead()
    ensures Encode("f$oo") == "f%24oo"
  {
  }

  lemma EncodeExampleTail()
    ensures Encode(" bar") == "+bar"
  {
  }

  /** The example of the readers: `f$oo bar` reads back as `f%24oo+bar`. */
  lemma EncodeExample()
    ensures Encode("f$oo bar") == "f%24oo+bar"
  {
    assert "f$oo bar" == "f$oo" + " bar";
    EncodeAppend("f$oo", " bar");
    EncodeExampleHead();
    EncodeExampleTail();
    assert "f%24oo" + "+bar" == "f%24oo+bar";
  }
}
