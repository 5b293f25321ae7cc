/**
 * UTF-8 as the host's strict decoder applies it to the bytes of a native
 * string (RFC 3629, section 4): shortest forms only, no surrogate code
 * points, nothing above U+10FFFF.
 */
module Utf8 {
  import opened Results

  type byte = x: int | 0 <= x < 0x100

  predicate IsContinuation(b: byte) {
    0x80 <= b < 0xC0
  }

  /** The bytes that encode one character. */
  function EncodeChar(c: char): (b: seq<byte>)
    ensures 1 <= |b| <= 4
    ensures b[0] == 0 <==> c == '\0'
    ensures forall i :: 1 <= i < |b| ==> IsContinuation(b[i])
  {
    var cp := c as int;
    if cp < 0x80 then [cp]
    else if cp < 0x800 then [0xC0 + cp / 0x40, 0x80 + cp % 0x40]
    else if cp < 0x1_0000 then [0xE0 + cp / 0x1000, 0x80 + (cp / 0x40) % 0x40, 0x80 + cp % 0x40]
    else [0xF0 + cp / 0x4_0000, 0x80 + (cp / 0x1000) % 0x40, 0x80 + (cp / 0x40) % 0x40, 0x80 + cp % 0x40]
  }

  /** The encoding of a string: each character's bytes, in order. */
  function Encode(s: string): seq<byte> {
    if |s| == 0 then [] else EncodeChar(s[0]) + Encode(s[1..])
  }

  /**
   * The character the well-formed sequence at the front of `b` encodes and
   * the number of bytes it takes, or None when the front is ill-formed
   * (RFC 3629, section 4, table of well-formed byte sequences).
   */
  function DecodeFirst(b: seq<byte>): (r: Option<(char, nat)>)
    requires |b| > 0
    ensures r.Some? ==> 1 <= r.value.1 <= |b|
  {
    var b0: int := b[0];
    if b0 < 0x80 then Some((b0 as char, 1))
    else if 0xC2 <= b0 <= 0xDF then
      if |b| < 2 || !IsContinuation(b[1]) then None
      else Some((((b0 - 0xC0) * 0x40 + (b[1] as int - 0x80)) as char, 2))
    else if 0xE0 <= b0 <= 0xEF then
      var lo := if b0 == 0xE0 then 0xA0 else 0x80;
      var hi := if b0 == 0xED then 0x9F else 0xBF;
      if |b| < 3 || !(lo <= b[1] <= hi) || !IsContinuation(b[2]) then None
      else Some((((b0 - 0xE0) * 0x1000 + (b[1] as int - 0x80) * 0x40 + (b[2] as int - 0x80)) as char, 3))
    else if 0xF0 <= b0 <= 0xF4 then
      var lo := if b0 == 0xF0 then 0x90 else 0x80;
      var hi := if b0 == 0xF4 then 0x8F else 0xBF;
      if |b| < 4 || !(lo <= b[1] <= hi) || !IsContinuation(b[2]) || !IsContinuation(b[3]) then None
      else Some((((b0 - 0xF0) * 0x4_0000 + (b[1] as int - 0x80) * 0x1000 + (b[2] as int - 0x80) * 0x40 + (b[3] as int - 0x80)) as char, 4))
    else None
  }

  /** Strict decoding: the text, or None when any part of `b` is ill-formed. */
  function Decode(b: seq<byte>): Option<string>
    decreases |b|
  {
    if |b| == 0 then Some("")
    else
      match DecodeFirst(b)
      case None => None
      case Some((c, k)) =>
        match Decode(b[k..])
        case None => None
        case Some(rest) => Some([c] + rest)
  }

  /** Decoding the front of a character's encoding gives back that character. */
  lemma DecodeFirstOfEncodeChar(c: char, rest: seq<byte>)
    ensures DecodeFirst(EncodeChar(c) + rest) == Some((c, |EncodeChar(c)|))
  {
    var cp := c as int;
    var b := EncodeChar(c) + rest;
    if cp < 0x80 {
    } else if cp < 0x800 {
      assert cp == (cp / 0x40) * 0x40 + cp % 0x40;
    } else if cp < 0x1_0000 {
      var q := cp / 0x40;
      assert cp == q * 0x40 + cp % 0x40;
      assert q == (q / 0x40) * 0x40 + q % 0x40;
      assert cp / 0x1000 == q / 0x40;
    } else {
      var q := cp / 0x40;
      var p := q / 0x40;
      assert cp == q * 0x40 + cp % 0x40;
      assert q == p * 0x40 + q % 0x40;
      assert p == (p / 0x40) * 0x40 + p % 0x40;
      assert cp / 0x1000 == p;
      assert cp / 0x4_0000 == p / 0x40;
    }
  }

  /** What `DecodeFirst` accepts is exactly the encoding of the character it returns. */
  lemma DecodeFirstIsEncoding(b: seq<byte>)
    requires |b| > 0 && DecodeFirst(b).Some?
    ensures EncodeChar(DecodeFirst(b).value.0) == b[..DecodeFirst(b).value.1]
  {
    var b0: int := b[0];
    var c := DecodeFirst(b).value.0;
    var cp := c as int;
    if b0 < 0x80 {
    } else if b0 <= 0xDF {
      var r1 := b[1] as int - 0x80;
      assert cp == (b0 - 0xC0) * 0x40 + r1;
      assert cp / 0x40 == b0 - 0xC0 && cp % 0x40 == r1;
    } else if b0 <= 0xEF {
      var r1, r2 := b[1] as int - 0x80, b[2] as int - 0x80;
      var q := (b0 - 0xE0) * 0x40 + r1;
      assert cp == q * 0x40 + r2;
      assert cp / 0x40 == q && cp % 0x40 == r2;
      assert q / 0x40 == b0 - 0xE0 && q % 0x40 == r1;
      assert cp / 0x1000 == q / 0x40;
    } else {
      var r1, r2, r3 := b[1] as int - 0x80, b[2] as int - 0x80, b[3] as int - 0x80;
      var p := (b0 - 0xF0) * 0x40 + r1;
      var q := p * 0x40 + r2;
      assert cp == q * 0x40 + r3;
      assert cp / 0x40 == q && cp % 0x40 == r3;
      assert q / 0x40 == p && q % 0x40 == r2;
      assert p / 0x40 == b0 - 0xF0 && p % 0x40 == r1;
      assert cp / 0x1000 == p && cp / 0x4_0000 == b0 - 0xF0;
    }
  }

  lemma {:induction false} EncodeAppend(s: string, t: string)
    ensures Encode(s + t) == Encode(s) + Encode(t)
  {
    if |s| > 0 {
      assert (s + t)[1..] == s[1..] + t;
      EncodeAppend(s[1..], t);
    } else {
      assert s + t == t;
    }
  }

  /** Every string survives encoding then decoding. */
  lemma {:induction false} DecodeEncode(s: string)
    ensures Decode(Encode(s)) == Some(s)
  {
    if |s| > 0 {
      var e := EncodeChar(s[0]);
      DecodeFirstOfEncodeChar(s[0], Encode(s[1..]));
      assert (e + Encode(s[1..]))[|e|..] == Encode(s[1..]);
      DecodeEncode(s[1..]);
      assert [s[0]] + s[1..] == s;
    }
  }

  /**
   * A successful decoding splits into the encoding of its first character
   * and a successful decoding of the bytes after it.
   */
  lemma DecodeSplit(b: seq<byte>) returns (k: nat)
    requires |b| > 0 && Decode(b).Some?
    ensures 0 < k <= |b| && |Decode(b).value| > 0
    ensures b[..k] == EncodeChar(Decode(b).value[0])
    ensures Decode(b[k..]) == Some(Decode(b).value[1..])
  {
    k := DecodeFirst(b).value.1;
    DecodeFirstIsEncoding(b);
  }

  /** Decoding succeeds only on an encoding, so the text it yields encodes back to exactly the bytes. */
  lemma {:induction false} EncodeDecode(b: seq<byte>)
    requires Decode(b).Some?
    ensures Encode(Decode(b).value) == b
    decreases |b|
  {
    if |b| > 0 {
      var k := DecodeSplit(b);
      EncodeDecode(b[k..]);
      assert b == b[..k] + b[k..];
    }
  }

  /** Only the NUL character encodes to a zero byte. */
  lemma {:induction false} NoZeroByteWithoutNul(s: string)
    requires '\0' !in s
    ensures 0 !in Encode(s)
  {
    if |s| > 0 {
      NoZeroByteWithoutNul(s[1..]);
      assert s[0] != '\0';
    }
  }
}
