/**
 * Base64 with the standard alphabet and '=' padding (section 4 of RFC 4648),
 * as produced by `buf.toString('base64')` in Node.js.
 */
module Base64 {
  import opened Common

  const Pad: char := '='

  predicate IsAlphabetChar(c: char)
  {
    ('A' <= c <= 'Z') || ('a' <= c <= 'z') || ('0' <= c <= '9') || c == '+' || c == '/'
  }

  /** The value of an alphabet character (table 1 of RFC 4648). */
  function Value(c: char): (v: int)
    requires IsAlphabetChar(c)
    ensures 0 <= v < 64
  {
    if 'A' <= c <= 'Z' then c as int - 'A' as int
    else if 'a' <= c <= 'z' then c as int - 'a' as int + 26
    else if '0' <= c <= '9' then c as int - '0' as int + 52
    else if c == '+' then 62
    else 63
  }

  /** The alphabet character for a 6-bit value; Value is its inverse. */
  function Sextet(v: int): (c: char)
    requires 0 <= v < 64
    ensures IsAlphabetChar(c) && Value(c) == v
  {
    if v < 26 then ('A' as int + v) as char
    else if v < 52 then ('a' as int + (v - 26)) as char
    else if v < 62 then ('0' as int + (v - 52)) as char
    else if v == 62 then '+'
    else '/'
  }

  /** Three bytes, 24 bits, as four characters. */
  function EncodeTriple(b0: byte, b1: byte, b2: byte): string
  {
    [Sextet(b0 / 4), Sextet((b0 % 4) * 16 + b1 / 16), Sextet((b1 % 16) * 4 + b2 / 64), Sextet(b2 % 64)]
  }

  /** The final quantum: one or two bytes left over, padded with '=' to four characters. */
  function EncodeTail(b: seq<byte>): string
    requires 1 <= |b| <= 2
  {
    if |b| == 1 then [Sextet(b[0] / 4), Sextet((b[0] % 4) * 16), Pad, Pad]
    else [Sextet(b[0] / 4), Sextet((b[0] % 4) * 16 + b[1] / 16), Sextet((b[1] % 16) * 4), Pad]
  }

  predicate IsEncodedChar(c: char)
  {
    IsAlphabetChar(c) || c == Pad
  }

  /** The Base64 text of a byte sequence: one quantum of four characters per three bytes. */
  function Encode(b: seq<byte>): (s: string)
    ensures |s| == 4 * ((|b| + 2) / 3)
    ensures forall i :: 0 <= i < |s| ==> IsEncodedChar(s[i])
    decreases |b|
  {
    if |b| == 0 then ""
    else if |b| <= 2 then EncodeTail(b)
    else EncodeTriple(b[0], b[1], b[2]) + Encode(b[3..])
  }

  /** The value of a character, or 0 when it is not in the alphabet. */
  function ValueOr0(c: char): (v: int)
    ensures 0 <= v < 64
  {
    if IsAlphabetChar(c) then Value(c) else 0
  }

  /**
   * Reads Base64 text back to bytes, four characters at a time; a '=' in the
   * third or fourth place ends the text. Independent of Encode, it is what
   * shows that Encode loses nothing.
   */
  function Decode(s: string): seq<byte>
    decreases |s|
  {
    if |s| < 4 then []
    else
      var v0, v1, v2, v3 := ValueOr0(s[0]), ValueOr0(s[1]), ValueOr0(s[2]), ValueOr0(s[3]);
      var b0: byte := v0 * 4 + v1 / 16;
      var b1: byte := (v1 % 16) * 16 + v2 / 4;
      var b2: byte := (v2 % 4) * 64 + v3;
      if s[2] == Pad then [b0]
      else if s[3] == Pad then [b0, b1]
      else [b0, b1, b2] + Decode(s[4..])
  }

  lemma TripleRoundTrip(b0: byte, b1: byte, b2: byte)
    ensures (b0 / 4) * 4 + ((b0 % 4) * 16 + b1 / 16) / 16 == b0
    ensures (((b0 % 4) * 16 + b1 / 16) % 16) * 16 + ((b1 % 16) * 4 + b2 / 64) / 4 == b1
    ensures (((b1 % 16) * 4 + b2 / 64) % 4) * 64 + b2 % 64 == b2
  {
  }

  lemma DecodeEncodeTail(b: seq<byte>)
    requires 1 <= |b| <= 2
    ensures Decode(EncodeTail(b)) == b
  {
  }

  lemma DecodeTriple(b0: byte, b1: byte, b2: byte, rest: string)
    ensures Decode(EncodeTriple(b0, b1, b2) + rest) == [b0, b1, b2] + Decode(rest)
  {
    var s := EncodeTriple(b0, b1, b2) + rest;
    TripleRoundTrip(b0, b1, b2);
    assert s[4..] == rest;
    assert ValueOr0(s[0]) == b0 / 4;
    assert ValueOr0(s[1]) == (b0 % 4) * 16 + b1 / 16;
    assert ValueOr0(s[2]) == (b1 % 16) * 4 + b2 / 64;
    assert ValueOr0(s[3]) == b2 % 64;
  }

  /** Decoding the encoding gives back the bytes: Encode is injective. */
  lemma {:induction false} DecodeEncode(b: seq<byte>)
    ensures Decode(Encode(b)) == b
    decreases |b|
  {
    if |b| == 0 {
    } else if |b| <= 2 {
      DecodeEncodeTail(b);
    } else {
      DecodeTriple(b[0], b[1], b[2], Encode(b[3..]));
      DecodeEncode(b[3..]);
      assert b == [b[0], b[1], b[2]] + b[3..];
    }
  }

  lemma EncodeInjective(a: seq<byte>, b: seq<byte>)
    ensures Encode(a) == Encode(b) <==> a == b
  {
    if Encode(a) == Encode(b) {
      DecodeEncode(a);
      DecodeEncode(b);
    }
  }

  /** Splitting the input at a multiple of three splits the output at the matching multiple of four. */
  lemma {:induction false} EncodeAppend(a: seq<byte>, b: seq<byte>)
    requires |a| % 3 == 0
    ensures Encode(a + b) == Encode(a) + Encode(b)
    decreases |a|
  {
    if |a| == 0 {
      assert a + b == b;
    } else {
      assert (a + b)[3..] == a[3..] + b;
      assert (a + b)[..3] == a[..3];
      EncodeAppend(a[3..], b);
    }
  }

  lemma QuantumCount(k: nat)
    ensures (3 * k + 2) / 3 == k
  {
    var q := (3 * k + 2) / 3;
    assert 3 * q <= 3 * k + 2 < 3 * q + 3;
  }

  /**
   * The first 4k characters of the encoding depend only on the first 3k bytes:
   * they are the encoding of those bytes.
   */
  lemma EncodePrefix(b: seq<byte>, k: nat)
    requires 3 * k <= |b|
    ensures |Encode(b)| >= 4 * k
    ensures Encode(b)[..4 * k] == Encode(b[..3 * k])
  {
    var head := b[..3 * k];
    EncodeAppend(head, b[3 * k..]);
    assert b == head + b[3 * k..];
    QuantumCount(k);
    assert |Encode(head)| == 4 * k;
  }

  // The examples of section 10 of RFC 4648, one quantum at a time.

  lemma EncodesM()
    ensures Encode([77]) == "TQ=="
  {
  }

  lemma EncodesMa()
    ensures Encode([77, 97]) == "TWE="
  {
  }

  lemma EncodesMan()
    ensures Encode([77, 97, 110]) == "TWFu"
  {
    var man: seq<byte> := [77, 97, 110];
    assert man[3..] == [];
    assert Sextet(19) == 'T' && Sextet(22) == 'W' && Sextet(5) == 'F' && Sextet(46) == 'u';
    assert EncodeTriple(77, 97, 110) == "TWFu";
  }

  lemma EncodesFoobar()
    ensures Encode([102, 111, 111, 98, 97, 114]) == "Zm9vYmFy"
  {
    var foobar: seq<byte> := [102, 111, 111, 98, 97, 114];
    var bar: seq<byte> := [98, 97, 114];
    assert foobar[3..] == bar && bar[3..] == [];
    assert Encode(bar) == "YmFy" by {
      assert EncodeTriple(98, 97, 114) == "YmFy";
    }
    assert EncodeTriple(102, 111, 111) == "Zm9v";
  }

  /** A PNG file starts with the bytes 89 50 4E 47 0D 0A 1A 0A; their encoding starts "iVBORw0KGgo". */
  lemma EncodesPngSignature()
    ensures Encode([0x89, 0x50, 0x4E, 0x47, 0x0D, 0x0A, 0x1A, 0x0A]) == "iVBORw0KGgo="
  {
    var sig: seq<byte> := [0x89, 0x50, 0x4E, 0x47, 0x0D, 0x0A, 0x1A, 0x0A];
    var rest: seq<byte> := [0x47, 0x0D, 0x0A, 0x1A, 0x0A];
    var tail: seq<byte> := [0x1A, 0x0A];
    assert sig[3..] == rest && rest[3..] == tail;
    assert Encode(tail) == "Ggo=" by {
      assert EncodeTail(tail) == "Ggo=";
    }
    assert Encode(rest) == "Rw0KGgo=" by {
      assert EncodeTriple(0x47, 0x0D, 0x0A) == "Rw0K";
    }
    assert EncodeTriple(0x89, 0x50, 0x4E) == "iVBO";
  }
}
