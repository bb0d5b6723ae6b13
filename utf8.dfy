/**
 * UTF-8 as Python's str.encode("utf8") and bytes.decode("utf8") (strict
 * error handling) apply it: a Dafny char is a Unicode scalar value, encoded
 * in one to four bytes; decoding accepts exactly the well-formed byte
 * sequences of Table 3-7 of the Unicode Standard and fails on anything else.
 */
module Utf8 {
  import opened Wrappers
  import opened IntBytes

  predicate IsAsciiChar(c: char) { (c as int) < 0x80 }

  predicate IsAscii(s: string) { forall i :: 0 <= i < |s| ==> IsAsciiChar(s[i]) }

  predicate IsContinuation(b: byte) { 0x80 <= b < 0xC0 }

  function EncodeChar(c: char): (r: seq<byte>)
    ensures 1 <= |r| <= 4
    ensures |r| == 1 <==> IsAsciiChar(c)
  {
    var v := c as int;
    if v < 0x80 then [v]
    else if v < 0x800 then [0xC0 + v / 64, 0x80 + v % 64]
    else if v < 0x10000 then [0xE0 + v / 4096, 0x80 + (v / 64) % 64, 0x80 + v % 64]
    else [0xF0 + v / 262144, 0x80 + (v / 4096) % 64, 0x80 + (v / 64) % 64, 0x80 + v % 64]
  }

  /** str.encode("utf8"). */
  function Encode(s: string): seq<byte>
  {
    if s == [] then [] else EncodeChar(s[0]) + Encode(s[1..])
  }

  /** The first character of a non-empty byte string and the number of bytes it takes, or None if those bytes are not well-formed UTF-8. */
  function DecodeChar(bs: seq<byte>): (r: Option<(char, nat)>)
    requires bs != []
    ensures r.Some? ==> 1 <= r.value.1 <= |bs|
  {
    var b0: int := bs[0];
    if b0 < 0x80 then
      Some((b0 as char, 1))
    else if 0xC2 <= b0 < 0xE0 then
      if |bs| >= 2 && IsContinuation(bs[1])
      then Some((Scalar2(b0, bs[1]) as char, 2))
      else None
    else if 0xE0 <= b0 < 0xF0 then
      var lo := if b0 == 0xE0 then 0xA0 else 0x80;
      var hi := if b0 == 0xED then 0x9F else 0xBF;
      if |bs| >= 3 && lo <= bs[1] <= hi && IsContinuation(bs[2])
      then Some((Scalar3(b0, bs[1], bs[2]) as char, 3))
      else None
    else if 0xF0 <= b0 < 0xF5 then
      var lo := if b0 == 0xF0 then 0x90 else 0x80;
      var hi := if b0 == 0xF4 then 0x8F else 0xBF;
      if |bs| >= 4 && lo <= bs[1] <= hi && IsContinuation(bs[2]) && IsContinuation(bs[3])
      then Some((Scalar4(b0, bs[1], bs[2], bs[3]) as char, 4))
      else None
    else
      None
  }

  function Scalar2(b0: int, b1: int): int { (b0 - 0xC0) * 64 + (b1 - 0x80) }

  function Scalar3(b0: int, b1: int, b2: int): int { (b0 - 0xE0) * 4096 + (b1 - 0x80) * 64 + (b2 - 0x80) }

  function Scalar4(b0: int, b1: int, b2: int, b3: int): int
  {
    (b0 - 0xF0) * 262144 + (b1 - 0x80) * 4096 + (b2 - 0x80) * 64 + (b3 - 0x80)
  }

  /** bytes.decode("utf8"): None where Python raises UnicodeDecodeError. */
  function Decode(bs: seq<byte>): Option<string>
    decreases |bs|
  {
    if bs == [] then Some([])
    else
      match DecodeChar(bs)
      case None => None
      case Some((c, n)) =>
        match Decode(bs[n..])
        case None => None
        case Some(rest) => Some([c] + rest)
  }

  lemma DecodeEncodeChar(c: char, rest: seq<byte>)
    ensures DecodeChar(EncodeChar(c) + rest) == Some((c, |EncodeChar(c)|))
  {
    var v := c as int;
    if v < 0x80 {
    } else if v < 0x800 {
      DecodeEncodeTwo(c, rest);
    } else if v < 0x10000 {
      DecodeEncodeThree(c, rest);
    } else {
      DecodeEncodeFour(c, rest);
    }
  }

  lemma DecodeEncodeTwo(c: char, rest: seq<byte>)
    requires 0x80 <= c as int < 0x800
    ensures DecodeChar(EncodeChar(c) + rest) == Some((c, 2))
  {
    var v := c as int;
    var b0, b1 := 0xC0 + v / 64, 0x80 + v % 64;
    var bs := EncodeChar(c) + rest;
    assert bs[0] == b0 && bs[1] == b1;
    assert Scalar2(b0, b1) == v;
  }

  lemma DecodeEncodeThree(c: char, rest: seq<byte>)
    requires 0x800 <= c as int < 0x10000
    ensures DecodeChar(EncodeChar(c) + rest) == Some((c, 3))
  {
    var v := c as int;
    var q, m := v / 64, v % 64;
    var b0, b1, b2 := 0xE0 + q / 64, 0x80 + q % 64, 0x80 + m;
    assert v / 4096 == q / 64;
    var bs := EncodeChar(c) + rest;
    assert bs[0] == b0 && bs[1] == b1 && bs[2] == b2;
    assert Scalar3(b0, b1, b2) == (q / 64) * 4096 + (q % 64) * 64 + m;
    assert Scalar3(b0, b1, b2) == v;
  }

  lemma DecodeEncodeFour(c: char, rest: seq<byte>)
    requires 0x10000 <= c as int
    ensures DecodeChar(EncodeChar(c) + rest) == Some((c, 4))
  {
    var v := c as int;
    var q1, m1 := v / 64, v % 64;
    var q2, m2 := q1 / 64, q1 % 64;
    var q3, m3 := q2 / 64, q2 % 64;
    assert v / 4096 == q2;
    assert v / 262144 == q3;
    var b0, b1, b2, b3 := 0xF0 + q3, 0x80 + m3, 0x80 + m2, 0x80 + m1;
    var bs := EncodeChar(c) + rest;
    assert bs[0] == b0 && bs[1] == b1 && bs[2] == b2 && bs[3] == b3;
    assert Scalar4(b0, b1, b2, b3) == q3 * 262144 + m3 * 4096 + m2 * 64 + m1;
    assert Scalar4(b0, b1, b2, b3) == v;
  }

  /** Decoding inverts encoding for every string. */
  lemma {:induction false} DecodeEncode(s: string)
    ensures Decode(Encode(s)) == Some(s)
  {
    if s != [] {
      var head := EncodeChar(s[0]);
      var tail := Encode(s[1..]);
      DecodeEncodeChar(s[0], tail);
      assert (head + tail)[|head|..] == tail;
      DecodeEncode(s[1..]);
      assert [s[0]] + s[1..] == s;
    }
  }

  /** The encoding has exactly as many bytes as the string has characters iff the string is ASCII. */
  lemma {:induction false} EncodeLengthAscii(s: string)
    ensures |Encode(s)| >= |s|
    ensures |Encode(s)| == |s| <==> IsAscii(s)
  {
    if s != [] {
      EncodeLengthAscii(s[1..]);
      if IsAscii(s) {
        assert IsAscii(s[1..]) by {
          forall i | 0 <= i < |s[1..]| ensures IsAsciiChar(s[1..][i]) {
            assert s[1..][i] == s[i + 1];
          }
        }
      }
      if IsAscii(s[1..]) && IsAsciiChar(s[0]) {
        forall i | 0 <= i < |s| ensures IsAsciiChar(s[i]) {
          if i > 0 { assert s[i] == s[1..][i - 1]; }
        }
      }
    }
  }
}
