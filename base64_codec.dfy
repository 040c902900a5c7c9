/** Base64 with the standard alphabet and `=` padding (section 4 of
    RFC 4648), no line breaks: what `buffer.toString('base64')` produces and
    what `Buffer.from(s, 'base64')` reads back from canonical input.

    The codec has two layers: bytes <-> 6-bit groups (arithmetic only), and
    6-bit groups <-> alphabet characters plus `=` padding. */
module Base64Codec {
  import opened Wrappers
  import opened Bytes

  type Sextet = v: int | 0 <= v < 64

  /** A character of the 64-character alphabet of section 4 of RFC 4648. */
  predicate IsBase64Char(c: char) {
    'A' <= c <= 'Z' || 'a' <= c <= 'z' || '0' <= c <= '9' || c == '+' || c == '/'
  }

  /** The alphabet entry for a 6-bit value (Table 1 of RFC 4648). */
  function CharOf(v: Sextet): (c: char)
    ensures IsBase64Char(c)
  {
    if v < 26 then ('A' as int + v) as char
    else if v < 52 then ('a' as int + (v - 26)) as char
    else if v < 62 then ('0' as int + (v - 52)) as char
    else if v == 62 then '+'
    else '/'
  }

  /** The 6-bit value an alphabet character stands for; the inverse of CharOf. */
  function ValueOf(c: char): (v: Sextet)
    requires IsBase64Char(c)
    ensures CharOf(v) == c
  {
    if 'A' <= c <= 'Z' then c as int - 'A' as int
    else if 'a' <= c <= 'z' then c as int - 'a' as int + 26
    else if '0' <= c <= '9' then c as int - '0' as int + 52
    else if c == '+' then 62
    else 63
  }

  lemma ValueOfCharOf(v: Sextet)
    ensures ValueOf(CharOf(v)) == v
  {
  }

  /** Three bytes as four 6-bit groups, most significant bits first. */
  function SplitGroup(b0: Byte, b1: Byte, b2: Byte): seq<Sextet> {
    [b0 / 4, (b0 % 4) * 16 + b1 / 16, (b1 % 16) * 4 + b2 / 64, b2 % 64]
  }

  /** Four 6-bit groups as three bytes. */
  function JoinGroup(v0: Sextet, v1: Sextet, v2: Sextet, v3: Sextet): seq<Byte> {
    var w0, w1, w2, w3 := v0 as int, v1 as int, v2 as int, v3 as int;
    [w0 * 4 + w1 / 16, (w1 % 16) * 16 + w2 / 4, (w2 % 4) * 64 + w3]
  }

  lemma JoinSplit(b0: Byte, b1: Byte, b2: Byte)
    ensures var v := SplitGroup(b0, b1, b2); JoinGroup(v[0], v[1], v[2], v[3]) == [b0, b1, b2]
  {
  }

  lemma SplitJoin(v0: Sextet, v1: Sextet, v2: Sextet, v3: Sextet)
    ensures var b := JoinGroup(v0, v1, v2, v3); SplitGroup(b[0], b[1], b[2]) == [v0, v1, v2, v3]
  {
    var w0, w1, w2, w3 := v0 as int, v1 as int, v2 as int, v3 as int;
    var b0, b1, b2 := w0 * 4 + w1 / 16, (w1 % 16) * 16 + w2 / 4, (w2 % 4) * 64 + w3;
    assert b0 / 4 == w0 && b0 % 4 == w1 / 16;
    assert b1 / 16 == w1 % 16 && b1 % 16 == w2 / 4;
    assert b2 / 64 == w2 % 4 && b2 % 64 == w3;
  }

  /** The number of 6-bit groups a trailing run of 0, 1 or 2 bytes yields. */
  function TailSextets(r: nat): nat {
    if r == 0 then 0 else r + 1
  }

  /** Bytes to 6-bit groups: every 3 bytes give 4 groups; a final 1 or 2
      bytes give 2 or 3 groups, the missing low bits set to zero. */
  function ToSextets(b: seq<Byte>): (v: seq<Sextet>)
    ensures |v| == 4 * (|b| / 3) + TailSextets(|b| % 3)
    decreases |b|
  {
    if |b| == 0 then []
    else if |b| == 1 then SplitGroup(b[0], 0, 0)[..2]
    else if |b| == 2 then SplitGroup(b[0], b[1], 0)[..3]
    else SplitGroup(b[0], b[1], b[2]) + ToSextets(b[3..])
  }

  /** 6-bit groups back to bytes; `None` for a lone final group or for
      non-zero discarded bits (a non-canonical encoding, section 3.5 of
      RFC 4648). */
  function FromSextets(v: seq<Sextet>): Option<seq<Byte>>
    decreases |v|
  {
    if |v| == 0 then Some([])
    else if |v| == 1 then None
    else if |v| == 2 then
      if v[1] % 16 == 0 then Some(JoinGroup(v[0], v[1], 0, 0)[..1]) else None
    else if |v| == 3 then
      if v[2] % 4 == 0 then Some(JoinGroup(v[0], v[1], v[2], 0)[..2]) else None
    else
      match FromSextets(v[4..])
      case None => None
      case Some(rest) => Some(JoinGroup(v[0], v[1], v[2], v[3]) + rest)
  }

  lemma {:induction false} FromToSextets(b: seq<Byte>)
    ensures FromSextets(ToSextets(b)) == Some(b)
    decreases |b|
  {
    if |b| == 1 {
      var w := SplitGroup(b[0], 0, 0);
      var v := ToSextets(b);
      assert v == w[..2];
      JoinSplit(b[0], 0, 0);
      assert w[2] == 0 && w[3] == 0 && v[1] % 16 == 0;
      assert JoinGroup(v[0], v[1], 0, 0)[..1] == [b[0]];
      assert FromSextets(v) == Some(JoinGroup(v[0], v[1], 0, 0)[..1]);
      assert b == [b[0]];
    } else if |b| == 2 {
      var w := SplitGroup(b[0], b[1], 0);
      var v := ToSextets(b);
      assert v == w[..3];
      JoinSplit(b[0], b[1], 0);
      assert w[3] == 0 && v[2] % 4 == 0;
      assert JoinGroup(v[0], v[1], v[2], 0)[..2] == [b[0], b[1]];
      assert FromSextets(v) == Some(JoinGroup(v[0], v[1], v[2], 0)[..2]);
      assert b == [b[0], b[1]];
    } else if |b| >= 3 {
      var v := ToSextets(b);
      assert v[..4] == SplitGroup(b[0], b[1], b[2]);
      assert v[4..] == ToSextets(b[3..]);
      JoinSplit(b[0], b[1], b[2]);
      FromToSextets(b[3..]);
      assert [b[0], b[1], b[2]] + b[3..] == b;
    }
  }

  lemma {:induction false} ToFromSextets(v: seq<Sextet>)
    requires FromSextets(v).Some?
    ensures ToSextets(FromSextets(v).value) == v
    decreases |v|
  {
    if |v| == 2 {
      SplitJoin(v[0], v[1], 0, 0);
    } else if |v| == 3 {
      SplitJoin(v[0], v[1], v[2], 0);
    } else if |v| >= 4 {
      var b := FromSextets(v).value;
      var rest := FromSextets(v[4..]).value;
      ToFromSextets(v[4..]);
      SplitJoin(v[0], v[1], v[2], v[3]);
      assert b[3..] == rest;
      assert v[..4] + v[4..] == v;
    }
  }

  function Chars(v: seq<Sextet>): string {
    seq(|v|, k requires 0 <= k < |v| => CharOf(v[k]))
  }

  predicate AllBase64Chars(s: string) {
    forall k :: 0 <= k < |s| ==> IsBase64Char(s[k])
  }

  function Values(s: string): seq<Sextet>
    requires AllBase64Chars(s)
  {
    seq(|s|, k requires 0 <= k < |s| => ValueOf(s[k]))
  }

  /** The number of `=` characters that end the encoding of n bytes. */
  function PadCount(n: nat): nat {
    (3 - n % 3) % 3
  }

  function Padding(n: nat): string {
    seq(n, _ => '=')
  }

  /** The standard encoding of a byte sequence (see EncodeShape). */
  function Encode(b: seq<Byte>): string {
    Chars(ToSextets(b)) + Padding(PadCount(|b|))
  }

  /** How many `=` end s (at most two are taken as padding). */
  function TrailingPad(s: string): nat {
    if |s| >= 2 && s[|s| - 1] == '=' && s[|s| - 2] == '=' then 2
    else if |s| >= 1 && s[|s| - 1] == '=' then 1
    else 0
  }

  /** Strict decoding of canonical base64; `None` on anything else. */
  function Decode(s: string): Option<seq<Byte>> {
    if |s| % 4 != 0 then None
    else
      var body := s[..|s| - TrailingPad(s)];
      if AllBase64Chars(body) then FromSextets(Values(body)) else None
  }

  lemma ValuesOfChars(v: seq<Sextet>)
    ensures AllBase64Chars(Chars(v)) && Values(Chars(v)) == v
  {
    forall k | 0 <= k < |v| ensures Values(Chars(v))[k] == v[k] {
      ValueOfCharOf(v[k]);
    }
  }

  lemma CharsOfValues(s: string)
    requires AllBase64Chars(s)
    ensures Chars(Values(s)) == s
  {
  }

  /** The `=` run at the end of an encoding is exactly its padding. */
  lemma TrailingPadOfEncoding(v: seq<Sextet>, n: nat)
    requires n <= 2 && (n == 1 ==> |v| > 0)
    ensures TrailingPad(Chars(v) + Padding(n)) == n
    ensures (Chars(v) + Padding(n))[..|v|] == Chars(v)
  {
    var s := Chars(v) + Padding(n);
    if n < 2 && |v| > 0 {
      assert s[|v| - 1] == CharOf(v[|v| - 1]);
    }
  }

  /** Groups plus padding fill whole 4-character blocks. */
  lemma EncodedLength(n: nat)
    ensures 4 * (n / 3) + TailSextets(n % 3) + PadCount(n) == 4 * ((n + 2) / 3)
    ensures (n % 3 == 0) == (PadCount(n) == 0)
    ensures PadCount(n) == 1 ==> n % 3 == 2
  {
  }

  /** The shape of an encoding: 4 characters per started group of 3
      bytes, `=` exactly on the padded tail, every other character from the
      alphabet. */
  lemma EncodeShape(b: seq<Byte>)
    ensures |Encode(b)| == 4 * ((|b| + 2) / 3)
    ensures forall k :: 0 <= k < |Encode(b)| ==> (Encode(b)[k] == '=' <==> |Encode(b)| - PadCount(|b|) <= k)
    ensures forall k :: 0 <= k < |Encode(b)| && Encode(b)[k] != '=' ==> IsBase64Char(Encode(b)[k])
  {
    var v := ToSextets(b);
    EncodedLength(|b|);
    forall k | 0 <= k < |v| ensures Encode(b)[k] == CharOf(v[k]) {
    }
  }

  /** Alphabet characters followed by at most two `=` decode to whatever
      their 6-bit values decode to. */
  lemma DecodePadded(v: seq<Sextet>, pad: nat)
    requires pad <= 2 && (pad == 1 ==> |v| > 0)
    requires (|v| + pad) % 4 == 0
    ensures Decode(Chars(v) + Padding(pad)) == FromSextets(v)
  {
    var s := Chars(v) + Padding(pad);
    TrailingPadOfEncoding(v, pad);
    ValuesOfChars(v);
    assert s[..|s| - TrailingPad(s)] == Chars(v);
  }

  /** Decoding inverts encoding: `Buffer.from(buf.toString('base64'), 'base64')`
      gives back the bytes of `buf`. */
  lemma DecodeEncode(b: seq<Byte>)
    ensures Decode(Encode(b)) == Some(b)
  {
    EncodedLength(|b|);
    DecodePadded(ToSextets(b), PadCount(|b|));
    FromToSextets(b);
  }

  lemma PadFromLength(n: nat, pad: nat, m: nat)
    requires m == 4 * (n / 3) + TailSextets(n % 3)
    requires pad <= 2 && (m + pad) % 4 == 0
    ensures PadCount(n) == pad
  {
  }

  lemma TrailingPadIsPadding(s: string)
    ensures TrailingPad(s) <= |s|
    ensures s[|s| - TrailingPad(s)..] == Padding(TrailingPad(s))
  {
  }

  /** Strict decoding accepts only canonical encodings: whatever it accepts
      is exactly the encoding of the bytes it returns. */
  lemma EncodeDecode(s: string)
    requires Decode(s).Some?
    ensures Encode(Decode(s).value) == s
  {
    var pad := TrailingPad(s);
    var body := s[..|s| - pad];
    var v := Values(body);
    var b := FromSextets(v).value;
    ToFromSextets(v);
    PadFromLength(|b|, pad, |v|);
    CharsOfValues(body);
    TrailingPadIsPadding(s);
    calc {
      Encode(b);
      Chars(v) + Padding(pad);
      body + s[|s| - pad..];
      { assert s[..|s| - pad] + s[|s| - pad..] == s; }
      s;
    }
  }

  /** A full group of three bytes is four alphabet characters, one per
      6-bit group. */
  lemma EncodeGroup(b0: Byte, b1: Byte, b2: Byte, v0: Sextet, v1: Sextet, v2: Sextet, v3: Sextet)
    requires SplitGroup(b0, b1, b2) == [v0, v1, v2, v3]
    ensures Encode([b0, b1, b2]) == [CharOf(v0), CharOf(v1), CharOf(v2), CharOf(v3)]
  {
    var b: seq<Byte> := [b0, b1, b2];
    assert b[3..] == [];
    assert ToSextets(b) == SplitGroup(b0, b1, b2);
  }

  /** A final byte is two characters, the second with four zero bits, and
      two `=`. */
  lemma EncodeFinalByte(b0: Byte, v0: Sextet, v1: Sextet)
    requires SplitGroup(b0, 0, 0)[..2] == [v0, v1]
    ensures Encode([b0]) == [CharOf(v0), CharOf(v1), '=', '=']
  {
    assert ToSextets([b0]) == [v0, v1];
  }

  /** Two final bytes are three characters, the third with two zero bits,
      and one `=`. */
  lemma EncodeFinalTwoBytes(b0: Byte, b1: Byte, v0: Sextet, v1: Sextet, v2: Sextet)
    requires SplitGroup(b0, b1, 0)[..3] == [v0, v1, v2]
    ensures Encode([b0, b1]) == [CharOf(v0), CharOf(v1), CharOf(v2), '=']
  {
    assert ToSextets([b0, b1]) == [v0, v1, v2];
  }

  /** Encoding works group by group: a leading group of three bytes encodes
      on its own, ahead of the rest. */
  lemma EncodeLeadingGroup(b0: Byte, b1: Byte, b2: Byte, rest: seq<Byte>)
    ensures Encode([b0, b1, b2] + rest) == Encode([b0, b1, b2]) + Encode(rest)
  {
    var b := [b0, b1, b2] + rest;
    var v, w := SplitGroup(b0, b1, b2), ToSextets(rest);
    assert b[3..] == rest;
    assert ([b0, b1, b2] + [])[3..] == [];
    assert ToSextets([b0, b1, b2]) == v + ToSextets([]);
    assert ToSextets(b) == v + w;
    assert Chars(v + w) == Chars(v) + Chars(w);
    assert PadCount(|b|) == PadCount(|rest|);
  }

  /* The test vectors of section 10 of RFC 4648, which pin the alphabet,
     the bit order and the padding: "", "f", "fo", "foo", "foob", "fooba"
     and "foobar" as ASCII bytes. */

  /** The alphabet entries the test vectors use (Table 1 of RFC 4648). */
  lemma TestVectorCharacters()
    ensures CharOf(4) == 'E' && CharOf(5) == 'F' && CharOf(24) == 'Y' && CharOf(25) == 'Z'
    ensures CharOf(32) == 'g' && CharOf(38) == 'm' && CharOf(47) == 'v' && CharOf(50) == 'y'
    ensures CharOf(60) == '8' && CharOf(61) == '9'
  {
  }

  lemma TestVectorEmpty()
    ensures Encode([]) == ""
  {
  }

  lemma TestVectorF()
    ensures Encode([102]) == "Zg=="
  {
    EncodeFinalByte(102, 25, 32);
    TestVectorCharacters();
  }

  lemma TestVectorFo()
    ensures Encode([102, 111]) == "Zm8="
  {
    EncodeFinalTwoBytes(102, 111, 25, 38, 60);
    TestVectorCharacters();
  }

  lemma TestVectorFoo()
    ensures Encode([102, 111, 111]) == "Zm9v"
  {
    EncodeGroup(102, 111, 111, 25, 38, 61, 47);
    TestVectorCharacters();
  }

  lemma TestVectorFoob()
    ensures Encode([102, 111, 111, 98]) == "Zm9vYg=="
  {
    EncodeLeadingGroup(102, 111, 111, [98]);
    assert [102, 111, 111] + [98] == [102, 111, 111, 98];
    TestVectorFoo();
    EncodeFinalByte(98, 24, 32);
    TestVectorCharacters();
  }

  lemma TestVectorFooba()
    ensures Encode([102, 111, 111, 98, 97]) == "Zm9vYmE="
  {
    EncodeLeadingGroup(102, 111, 111, [98, 97]);
    assert [102, 111, 111] + [98, 97] == [102, 111, 111, 98, 97];
    TestVectorFoo();
    EncodeFinalTwoBytes(98, 97, 24, 38, 4);
    TestVectorCharacters();
  }

  lemma TestVectorFoobar()
    ensures Encode([102, 111, 111, 98, 97, 114]) == "Zm9vYmFy"
  {
    EncodeLeadingGroup(102, 111, 111, [98, 97, 114]);
    assert [102, 111, 111] + [98, 97, 114] == [102, 111, 111, 98, 97, 114];
    TestVectorFoo();
    EncodeGroup(98, 97, 114, 24, 38, 5, 50);
    TestVectorCharacters();
  }
}
