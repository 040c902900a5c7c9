/** UTF-8 as used by Node.js `Buffer.from(string)` (encoding) and
    `buffer.toString()` (decoding, on well-formed input). A Dafny `char` is a
    Unicode scalar value, so every string has exactly one encoding. */
module Utf8 {
  import opened Wrappers
  import opened Bytes

  /** A continuation byte 10xxxxxx carrying the six low bits of v. */
  function Cont(v: nat): Byte {
    0x80 + v % 64
  }

  predicate IsCont(b: Byte) {
    0x80 <= b < 0xC0
  }

  /** The shortest UTF-8 form of one scalar value. */
  function EncodeChar(c: char): (b: seq<Byte>)
    ensures 1 <= |b| <= 4
    ensures (b[0] < 0x80) == (|b| == 1)
    ensures forall k :: 1 <= k < |b| ==> IsCont(b[k])
  {
    var cp := c as int;
    if cp < 0x80 then [cp]
    else if cp < 0x800 then [0xC0 + cp / 64, Cont(cp)]
    else if cp < 0x10000 then [0xE0 + cp / 4096, Cont(cp / 64), Cont(cp)]
    else [0xF0 + cp / 0x40000, Cont(cp / 4096), Cont(cp / 64), Cont(cp)]
  }

  function Encode(s: string): (b: seq<Byte>)
    ensures |s| <= |b| <= 4 * |s|
  {
    if s == [] then [] else EncodeChar(s[0]) + Encode(s[1..])
  }

  /** One scalar value decoded from the front of a byte sequence, and the
      number of bytes it used. */
  datatype Decoded = Decoded(c: char, size: nat)

  /** Strict decoding of the first scalar value: no stray continuation bytes,
      no overlong forms, no surrogates, nothing above U+10FFFF. */
  function DecodeChar(b: seq<Byte>): (r: Option<Decoded>)
    ensures r.Some? ==> 1 <= r.value.size <= |b|
  {
    if |b| == 0 then None
    else if b[0] < 0x80 then Some(Decoded(b[0] as char, 1))
    else if b[0] < 0xC0 then None
    else if b[0] < 0xE0 then
      if |b| < 2 || !IsCont(b[1]) then None
      else
        var cp := (b[0] as int - 0xC0) * 64 + (b[1] as int - 0x80);
        if cp < 0x80 then None else Some(Decoded(cp as char, 2))
    else if b[0] < 0xF0 then
      if |b| < 3 || !IsCont(b[1]) || !IsCont(b[2]) then None
      else
        var cp := (b[0] as int - 0xE0) * 4096 + (b[1] as int - 0x80) * 64 + (b[2] as int - 0x80);
        if cp < 0x800 || (0xD800 <= cp < 0xE000) then None else Some(Decoded(cp as char, 3))
    else if b[0] < 0xF8 then
      if |b| < 4 || !IsCont(b[1]) || !IsCont(b[2]) || !IsCont(b[3]) then None
      else
        var cp := (b[0] as int - 0xF0) * 0x40000 + (b[1] as int - 0x80) * 4096 + (b[2] as int - 0x80) * 64 + (b[3] as int - 0x80);
        if cp < 0x10000 || 0x110000 <= cp then None else Some(Decoded(cp as char, 4))
    else None
  }

  /** Strict decoding of a whole byte sequence; `None` on malformed input. */
  function Decode(b: seq<Byte>): (r: Option<string>)
    ensures r.Some? ==> |r.value| <= |b|
    decreases |b|
  {
    if b == [] then Some([])
    else
      match DecodeChar(b)
      case None => None
      case Some(d) =>
        match Decode(b[d.size..])
        case None => None
        case Some(rest) => Some([d.c] + rest)
  }

  lemma DecodeCharOfEncodeChar(c: char, rest: seq<Byte>)
    ensures DecodeChar(EncodeChar(c) + rest) == Some(Decoded(c, |EncodeChar(c)|))
  {
    var cp := c as int;
    if cp < 0x80 {
    } else if cp < 0x800 {
      DecodeTwo(c, rest);
    } else if cp < 0x10000 {
      DecodeThree(c, rest);
    } else {
      DecodeFour(c, rest);
    }
  }

  lemma DecodeTwo(c: char, rest: seq<Byte>)
    requires 0x80 <= c as int < 0x800
    ensures DecodeChar(EncodeChar(c) + rest) == Some(Decoded(c, 2))
  {
    var cp := c as int;
    var b := EncodeChar(c) + rest;
    assert b[0] == 0xC0 + cp / 64 && b[1] == Cont(cp);
    assert (b[0] as int - 0xC0) * 64 + (b[1] as int - 0x80) == cp;
  }

  lemma DecodeThree(c: char, rest: seq<Byte>)
    requires 0x800 <= c as int < 0x10000
    ensures DecodeChar(EncodeChar(c) + rest) == Some(Decoded(c, 3))
  {
    var cp := c as int;
    var b := EncodeChar(c) + rest;
    assert b[0] == 0xE0 + cp / 4096 && b[1] == Cont(cp / 64) && b[2] == Cont(cp);
    assert (cp / 4096) * 64 + (cp / 64) % 64 == cp / 64;
    assert (b[0] as int - 0xE0) * 4096 + (b[1] as int - 0x80) * 64 + (b[2] as int - 0x80) == cp;
  }

  lemma DecodeFour(c: char, rest: seq<Byte>)
    requires 0x10000 <= c as int
    ensures DecodeChar(EncodeChar(c) + rest) == Some(Decoded(c, 4))
  {
    var cp := c as int;
    var b := EncodeChar(c) + rest;
    assert b[0] == 0xF0 + cp / 0x40000 && b[1] == Cont(cp / 4096) && b[2] == Cont(cp / 64) && b[3] == Cont(cp);
    assert (cp / 0x40000) * 64 + (cp / 4096) % 64 == cp / 4096;
    assert (cp / 4096) * 64 + (cp / 64) % 64 == cp / 64;
    assert (b[0] as int - 0xF0) * 0x40000 + (b[1] as int - 0x80) * 4096 + (b[2] as int - 0x80) * 64 + (b[3] as int - 0x80) == cp;
  }

  /** Decoding inverts encoding: `Buffer.from(s).toString() == s`. */
  lemma {:induction false} DecodeEncode(s: string)
    ensures Decode(Encode(s)) == Some(s)
  {
    if s != [] {
      var head := EncodeChar(s[0]);
      var tail := Encode(s[1..]);
      DecodeCharOfEncodeChar(s[0], tail);
      assert (head + tail)[|head|..] == tail;
      DecodeEncode(s[1..]);
      assert [s[0]] + s[1..] == s;
    }
  }

  lemma EncodeCharOfDecodeChar(b: seq<Byte>)
    requires DecodeChar(b).Some?
    ensures EncodeChar(DecodeChar(b).value.c) == b[..DecodeChar(b).value.size]
  {
    var d := DecodeChar(b).value;
    if d.size == 2 {
      EncodeTwo(b[0], b[1], d.c);
    } else if d.size == 3 {
      EncodeThree(b[0], b[1], b[2], d.c);
    } else if d.size == 4 {
      EncodeFour(b[0], b[1], b[2], b[3], d.c);
    }
  }

  lemma EncodeTwo(b0: Byte, b1: Byte, c: char)
    requires 0xC0 <= b0 < 0xE0 && IsCont(b1)
    requires c as int == (b0 - 0xC0) * 64 + (b1 - 0x80) >= 0x80
    ensures EncodeChar(c) == [b0, b1]
  {
    var cp := c as int;
    assert cp / 64 == b0 - 0xC0;
  }

  lemma EncodeThree(b0: Byte, b1: Byte, b2: Byte, c: char)
    requires 0xE0 <= b0 < 0xF0 && IsCont(b1) && IsCont(b2)
    requires c as int == (b0 - 0xE0) * 4096 + (b1 - 0x80) * 64 + (b2 - 0x80) >= 0x800
    ensures EncodeChar(c) == [b0, b1, b2]
  {
    var cp := c as int;
    assert cp / 64 == (b0 - 0xE0) * 64 + (b1 - 0x80);
    assert cp / 4096 == b0 - 0xE0;
  }

  lemma EncodeFour(b0: Byte, b1: Byte, b2: Byte, b3: Byte, c: char)
    requires 0xF0 <= b0 < 0xF8 && IsCont(b1) && IsCont(b2) && IsCont(b3)
    requires c as int == (b0 - 0xF0) * 0x40000 + (b1 - 0x80) * 4096 + (b2 - 0x80) * 64 + (b3 - 0x80) >= 0x10000
    ensures EncodeChar(c) == [b0, b1, b2, b3]
  {
    var cp := c as int;
    assert cp / 64 == (b0 - 0xF0) * 4096 + (b1 - 0x80) * 64 + (b2 - 0x80);
    assert cp / 4096 == (b0 - 0xF0) * 64 + (b1 - 0x80);
    assert cp / 0x40000 == b0 - 0xF0;
  }

  /** Strict decoding accepts only shortest-form encodings: whatever it
      accepts is exactly the encoding of what it returns. */
  lemma {:induction false} EncodeDecode(b: seq<Byte>)
    requires Decode(b).Some?
    ensures Encode(Decode(b).value) == b
    decreases |b|
  {
    if b != [] {
      var d := DecodeChar(b).value;
      var s := Decode(b).value;
      EncodeCharOfDecodeChar(b);
      EncodeDecode(b[d.size..]);
      assert s[0] == d.c && s[1..] == Decode(b[d.size..]).value;
      assert b[..d.size] + b[d.size..] == b;
    }
  }
}
