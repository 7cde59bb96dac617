/**
 * The URL- and filename-safe Base 64 alphabet of section 5 of RFC 4648, without padding, as
 * `Buffer.toString("base64url")` writes it. Every three bytes become four characters; a final
 * one or two bytes become two or three characters.
 */
module Base64Url {
  import opened Wrappers

  type Byte = b: int | 0 <= b < 256

  /** A six-bit value. */
  type Sextet = v: int | 0 <= v < 64

  /** The character for a six-bit value: A-Z, a-z, 0-9, then '-' and '_'. */
  function CharOf(v: Sextet): char {
    if v < 26 then ('A' as int + v) as char
    else if v < 52 then ('a' as int + (v - 26)) as char
    else if v < 62 then ('0' as int + (v - 52)) as char
    else if v == 62 then '-'
    else '_'
  }

  /** The six-bit value of an alphabet character; None for any other character. */
  function ValueOf(c: char): (r: Option<Sextet>)
    ensures r.Some? ==> CharOf(r.value) == c
  {
    if 'A' <= c <= 'Z' then Some(c as int - 'A' as int)
    else if 'a' <= c <= 'z' then Some(c as int - 'a' as int + 26)
    else if '0' <= c <= '9' then Some(c as int - '0' as int + 52)
    else if c == '-' then Some(62)
    else if c == '_' then Some(63)
    else None
  }

  /** Reading a character back gives the value it was written for. */
  lemma ValueOfCharOf(v: Sextet)
    ensures ValueOf(CharOf(v)) == Some(v)
  {
  }

  /** Encoding without padding. */
  function Encode(bs: seq<Byte>): (s: string)
    ensures |s| == (4 * |bs| + 2) / 3
  {
    if |bs| == 0 then []
    else if |bs| == 1 then
      [CharOf(bs[0] / 4), CharOf(bs[0] % 4 * 16)]
    else if |bs| == 2 then
      [CharOf(bs[0] / 4), CharOf(bs[0] % 4 * 16 + bs[1] / 16), CharOf(bs[1] % 16 * 4)]
    else EncodeGroup(bs[0], bs[1], bs[2]) + Encode(bs[3..])
  }

  /** Three bytes as four characters. */
  function EncodeGroup(b0: Byte, b1: Byte, b2: Byte): string {
    [CharOf(b0 / 4), CharOf(b0 % 4 * 16 + b1 / 16), CharOf(b1 % 16 * 4 + b2 / 64), CharOf(b2 % 64)]
  }

  /** Decoding: None when a character is outside the alphabet or a single character is left
      over (which no byte string encodes to). Unused low bits of a final group are ignored. */
  function Decode(s: string): (r: Option<seq<Byte>>)
    ensures r.Some? ==> |r.value| == 3 * |s| / 4
  {
    if |s| == 0 then Some([])
    else if |s| == 1 then None
    else
      var c0, c1 := ValueOf(s[0]), ValueOf(s[1]);
      if c0.None? || c1.None? then None
      else
        var b0 := c0.value * 4 + c1.value / 16;
        if |s| == 2 then Some([b0])
        else
          var c2 := ValueOf(s[2]);
          if c2.None? then None
          else
            var b1 := c1.value % 16 * 16 + c2.value / 4;
            if |s| == 3 then Some([b0, b1])
            else
              var c3 := ValueOf(s[3]);
              if c3.None? then None
              else
                var b2 := c2.value % 4 * 64 + c3.value;
                match Decode(s[4..])
                case None => None
                case Some(rest) => Some([b0, b1, b2] + rest)
  }

  /** The bytes of one group survive their split into six-bit values. */
  lemma GroupArithmetic(b0: Byte, b1: Byte, b2: Byte)
    ensures b0 / 4 * 4 + (b0 % 4 * 16 + b1 / 16) / 16 == b0
    ensures (b0 % 4 * 16 + b1 / 16) % 16 * 16 + (b1 % 16 * 4 + b2 / 64) / 4 == b1
    ensures (b1 % 16 * 4 + b2 / 64) % 4 * 64 + b2 % 64 == b2
  {
    assert (b0 % 4 * 16 + b1 / 16) / 16 == b0 % 4;
    assert (b0 % 4 * 16 + b1 / 16) % 16 == b1 / 16;
    assert (b1 % 16 * 4 + b2 / 64) / 4 == b1 % 16;
    assert (b1 % 16 * 4 + b2 / 64) % 4 == b2 / 64;
  }

  /** A final lone byte decodes back. */
  lemma DecodeEncodeOne(b0: Byte)
    ensures Decode(Encode([b0])) == Some([b0])
  {
    var c0, c1 := b0 / 4, b0 % 4 * 16;
    assert c0 * 4 + c1 / 16 == b0 by {
      GroupArithmetic(b0, 0, 0);
    }
    ValueOfCharOf(c0);
    ValueOfCharOf(c1);
    assert Encode([b0]) == [CharOf(c0), CharOf(c1)];
  }

  /** A final pair of bytes decodes back. */
  lemma DecodeEncodeTwo(b0: Byte, b1: Byte)
    ensures Decode(Encode([b0, b1])) == Some([b0, b1])
  {
    var c0, c1, c2 := b0 / 4, b0 % 4 * 16 + b1 / 16, b1 % 16 * 4;
    assert c0 * 4 + c1 / 16 == b0 && c1 % 16 * 16 + c2 / 4 == b1 by {
      GroupArithmetic(b0, b1, 0);
    }
    ValueOfCharOf(c0);
    ValueOfCharOf(c1);
    ValueOfCharOf(c2);
    var s := Encode([b0, b1]);
    assert s == [CharOf(c0), CharOf(c1), CharOf(c2)];
  }

  /** A full group in front of any text decodes to its three bytes in front of that text's
      decoding. */
  lemma DecodeGroup(b0: Byte, b1: Byte, b2: Byte, t: string)
    ensures Decode(EncodeGroup(b0, b1, b2) + t) ==
      match Decode(t)
      case None => None
      case Some(rest) => Some([b0, b1, b2] + rest)
  {
    var c0, c1, c2, c3 := b0 / 4, b0 % 4 * 16 + b1 / 16, b1 % 16 * 4 + b2 / 64, b2 % 64;
    assert c0 * 4 + c1 / 16 == b0 && c1 % 16 * 16 + c2 / 4 == b1 && c2 % 4 * 64 + c3 == b2 by {
      GroupArithmetic(b0, b1, b2);
    }
    var s := EncodeGroup(b0, b1, b2) + t;
    assert ValueOf(s[0]) == Some(c0) && ValueOf(s[1]) == Some(c1) by {
      ValueOfCharOf(c0);
      ValueOfCharOf(c1);
    }
    assert ValueOf(s[2]) == Some(c2) && ValueOf(s[3]) == Some(c3) by {
      ValueOfCharOf(c2);
      ValueOfCharOf(c3);
    }
    assert s[4..] == t;
    DecodeFour(s, c0, c1, c2, c3);
  }

  /** Text starting with four alphabet characters decodes to their three bytes in front of the
      decoding of the rest. */
  lemma DecodeFour(s: string, c0: Sextet, c1: Sextet, c2: Sextet, c3: Sextet)
    requires |s| >= 4
    requires ValueOf(s[0]) == Some(c0) && ValueOf(s[1]) == Some(c1)
    requires ValueOf(s[2]) == Some(c2) && ValueOf(s[3]) == Some(c3)
    ensures Decode(s) ==
      match Decode(s[4..])
      case None => None
      case Some(rest) => Some([c0 * 4 + c1 / 16, c1 % 16 * 16 + c2 / 4, c2 % 4 * 64 + c3] + rest)
  {
  }

  /** Decoding is a left inverse of encoding, so encoding is injective. */
  lemma {:induction false} DecodeEncode(bs: seq<Byte>)
    ensures Decode(Encode(bs)) == Some(bs)
  {
    if |bs| == 1 {
      DecodeEncodeOne(bs[0]);
      assert bs == [bs[0]];
    } else if |bs| == 2 {
      DecodeEncodeTwo(bs[0], bs[1]);
      assert bs == [bs[0], bs[1]];
    } else if |bs| >= 3 {
      DecodeEncode(bs[3..]);
      DecodeGroup(bs[0], bs[1], bs[2], Encode(bs[3..]));
      assert bs == [bs[0], bs[1], bs[2]] + bs[3..];
    }
  }
}
