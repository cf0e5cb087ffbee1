/**
 The UTF-8 encoding form of section 3 of RFC 3629.

 A string is a sequence of Unicode scalar values, so field limits count characters
 while length prefixes count the bytes of Encode.
 */
module Utf8 {
  import opened Wrappers

  type Byte = x: int | 0 <= x < 256

  type Bytes = seq<Byte>

  predicate IsScalar(v: int) {
    0 <= v < 0xD800 || 0xE000 <= v < 0x11_0000
  }

  function EncodeChar(c: char): (bs: Bytes)
    ensures 1 <= |bs| <= 4
  {
    var v := c as int;
    if v < 0x80 then [v]
    else if v < 0x800 then [0xC0 + v / 0x40, 0x80 + v % 0x40]
    else if v < 0x1_0000 then [0xE0 + v / 0x1000, 0x80 + v / 0x40 % 0x40, 0x80 + v % 0x40]
    else [0xF0 + v / 0x4_0000, 0x80 + v / 0x1000 % 0x40, 0x80 + v / 0x40 % 0x40, 0x80 + v % 0x40]
  }

  function Encode(s: string): Bytes {
    if s == "" then [] else EncodeChar(s[0]) + Encode(s[1..])
  }

  /** The number of bytes announced by a leading byte, 0 for a byte that cannot lead. */
  function HeadLength(b: Byte): nat {
    if b < 0x80 then 1 else if b < 0xC0 then 0 else if b < 0xE0 then 2
    else if b < 0xF0 then 3 else if b < 0xF8 then 4 else 0
  }

  function HeadValue(bs: seq<int>): int
    requires 1 <= |bs| <= 4
  {
    if |bs| == 1 then bs[0]
    else if |bs| == 2 then (bs[0] - 0xC0) * 0x40 + (bs[1] - 0x80)
    else if |bs| == 3 then (bs[0] - 0xE0) * 0x1000 + (bs[1] - 0x80) * 0x40 + (bs[2] - 0x80)
    else (bs[0] - 0xF0) * 0x4_0000 + (bs[1] - 0x80) * 0x1000 + (bs[2] - 0x80) * 0x40 + (bs[3] - 0x80)
  }

  /** The scalar value at the front of bs; overlong forms and surrogates are refused. */
  function DecodeChar(bs: Bytes): Option<char>
    requires bs != []
  {
    var n := HeadLength(bs[0]);
    if n == 0 || |bs| < n then None
    else
      var v := HeadValue(bs[..n]);
      if IsScalar(v) && EncodeChar(v as char) == bs[..n] then Some(v as char) else None
  }

  function Decode(bs: Bytes): Option<string> {
    if bs == [] then Some("")
    else
      match DecodeChar(bs)
      case None => None
      case Some(c) =>
        match Decode(bs[HeadLength(bs[0])..])
        case None => None
        case Some(s) => Some([c] + s)
  }

  lemma EncodedCharValue(c: char)
    ensures HeadLength(EncodeChar(c)[0]) == |EncodeChar(c)|
    ensures HeadValue(EncodeChar(c)) == c as int
  {
    var v := c as int;
    var high := v / 0x40;
    assert v == high * 0x40 + v % 0x40;
    if v >= 0x800 {
      assert v / 0x1000 == high / 0x40;
      assert high == v / 0x1000 * 0x40 + high % 0x40;
      if v >= 0x1_0000 {
        assert v / 0x4_0000 == v / 0x1000 / 0x40;
        assert v / 0x1000 == v / 0x4_0000 * 0x40 + v / 0x1000 % 0x40;
      }
    }
  }

  lemma CharRoundTrip(c: char, rest: Bytes)
    ensures HeadLength((EncodeChar(c) + rest)[0]) == |EncodeChar(c)|
    ensures DecodeChar(EncodeChar(c) + rest) == Some(c)
  {
    var bs := EncodeChar(c);
    EncodedCharValue(c);
    assert (bs + rest)[..|bs|] == bs;
    assert IsScalar(c as int);
  }

  /** Decode inverts Encode, and accepts nothing but the output of Encode. */
  lemma {:induction false} DecodeExact(bs: Bytes, s: string)
    ensures Decode(bs) == Some(s) <==> bs == Encode(s)
    decreases |bs| + |s|
  {
    if bs == [] || s == "" {
    } else {
      if bs == Encode(s) {
        var rest := Encode(s[1..]);
        CharRoundTrip(s[0], rest);
        assert bs[|EncodeChar(s[0])|..] == rest;
        DecodeExact(rest, s[1..]);
        assert [s[0]] + s[1..] == s;
      }
      if Decode(bs) == Some(s) {
        var n := HeadLength(bs[0]);
        DecodeExact(bs[n..], s[1..]);
        assert bs == bs[..n] + bs[n..];
      }
    }
  }

  lemma EncodeInjective(s: string, t: string)
    requires Encode(s) == Encode(t)
    ensures s == t
  {
    DecodeExact(Encode(s), s);
    DecodeExact(Encode(s), t);
  }

  lemma {:induction false} EncodeConcat(s: string, t: string)
    ensures Encode(s + t) == Encode(s) + Encode(t)
  {
    if s == "" {
      assert s + t == t;
    } else {
      assert (s + t)[1..] == s[1..] + t;
      EncodeConcat(s[1..], t);
    }
  }

  /** ASCII text is encoded one byte a character. */
  lemma {:induction false} EncodeAscii(s: string)
    requires forall i :: 0 <= i < |s| ==> s[i] as int < 0x80
    ensures |Encode(s)| == |s|
    ensures forall i :: 0 <= i < |s| ==> Encode(s)[i] == s[i] as int
  {
    if s != "" {
      EncodeAscii(s[1..]);
    }
  }
}
