/**
 * The cache key of a resize request (src/app/api/resize/route.ts:41):
 *   "img:" + first 32 characters of Base64(UTF-8(imageData)) + ":" + width + "x" + height
 * Only a prefix of the payload enters the key; the lemmas below say exactly which prefix.
 */
module CacheKey {
  import opened Common
  import Utf8
  import Base64
  import Decimal

  const Namespace: string := "img:"
  /** `.slice(0, 32)` applied to the Base64 text. */
  const FingerprintLength: nat := 32
  /** 32 Base64 characters are the encoding of 24 bytes. */
  const HeadBytes: nat := 24

  /** The middle segment of the key: the Base64 text of the payload, cut to 32 characters. */
  function Fingerprint(imageData: string): (p: string)
    ensures |p| <= FingerprintLength
    ensures forall i :: 0 <= i < |p| ==> Base64.IsEncodedChar(p[i])
  {
    var text := Base64.Encode(Utf8.Encode(imageData));
    text[..Min(FingerprintLength, |text|)]
  }

  /** The bytes of the payload that the key depends on: the first 24, or all of them if fewer. */
  function Head(imageData: string): seq<byte>
  {
    var bytes := Utf8.Encode(imageData);
    bytes[..Min(HeadBytes, |bytes|)]
  }

  /**
   * The fingerprint is the whole encoding of the payload's head: for a payload of
   * 24 bytes or more, the encoding of its first 24 bytes; otherwise the whole
   * encoding, which is then at most 32 characters long.
   */
  lemma FingerprintIsEncodedHead(imageData: string)
    ensures Fingerprint(imageData) == Base64.Encode(Head(imageData))
    ensures |Fingerprint(imageData)| == Min(FingerprintLength, 4 * ((|Utf8.Encode(imageData)| + 2) / 3))
  {
    var bytes := Utf8.Encode(imageData);
    if |bytes| >= HeadBytes {
      Base64.EncodePrefix(bytes, 8);
    } else {
      assert Head(imageData) == bytes;
    }
  }

  /** The parts a key is made of, recovered from its text. */
  datatype KeyParts = KeyParts(fingerprint: string, width: nat, height: nat)

  /** Index of the first occurrence of c in s, or |s| when there is none. */
  function Find(s: string, c: char): (i: nat)
    ensures i <= |s|
    ensures i < |s| ==> s[i] == c
    ensures forall j :: 0 <= j < i ==> s[j] != c
  {
    if s == [] then 0
    else if s[0] == c then 0
    else 1 + Find(s[1..], c)
  }

  /** Splits "<width>x<height>" at its first 'x'; both sides must be numerals. */
  function ParseDimensions(s: string): Option<(nat, nat)>
  {
    var j := Find(s, 'x');
    if j == |s| || !Decimal.IsNumeral(s[..j]) || !Decimal.IsNumeral(s[j + 1..]) then None
    else Some((Decimal.ToNat(s[..j]), Decimal.ToNat(s[j + 1..])))
  }

  /**
   * Splits a key at the first ':' after the namespace and reads the dimensions after it.
   * It is the inverse of Key (see the contract of Key).
   */
  function ParseKey(k: string): Option<KeyParts>
  {
    if |k| < |Namespace| || k[..|Namespace|] != Namespace then None
    else
      var rest := k[|Namespace|..];
      var i := Find(rest, ':');
      if i == |rest| then None
      else match ParseDimensions(rest[i + 1..])
        case None => None
        case Some((w, h)) => Some(KeyParts(rest[..i], w, h))
  }

  /** In a + [c] + b with no c in a, the first c is the one between a and b. */
  lemma FindSeparator(a: string, c: char, b: string)
    requires forall j :: 0 <= j < |a| ==> a[j] != c
    ensures Find(a + [c] + b, c) == |a|
    ensures (a + [c] + b)[..|a|] == a && (a + [c] + b)[|a| + 1..] == b
  {
    var s := a + [c] + b;
    assert s[|a|] == c;
    assert forall j :: 0 <= j < |a| ==> s[j] == a[j];
  }

  lemma ParseRenderedDimensions(w: string, h: string)
    requires Decimal.IsNumeral(w) && Decimal.IsNumeral(h)
    ensures ParseDimensions(w + "x" + h) == Some((Decimal.ToNat(w), Decimal.ToNat(h)))
  {
    assert forall j :: 0 <= j < |w| ==> w[j] != 'x' by {
      forall j | 0 <= j < |w| ensures w[j] != 'x' { assert Decimal.IsDigit(w[j]); }
    }
    FindSeparator(w, 'x', h);
  }

  /** Assembling and parsing: ParseKey takes apart what was put together from its parts. */
  lemma ParseAssembled(p: string, w: string, h: string)
    requires forall j :: 0 <= j < |p| ==> p[j] != ':'
    requires Decimal.IsNumeral(w) && Decimal.IsNumeral(h)
    ensures ParseKey(Namespace + p + ":" + w + "x" + h) == Some(KeyParts(p, Decimal.ToNat(w), Decimal.ToNat(h)))
  {
    var dims := w + "x" + h;
    var rest := p + ":" + dims;
    var k := Namespace + p + ":" + w + "x" + h;
    assert k == Namespace + rest;
    assert k[..|Namespace|] == Namespace && k[|Namespace|..] == rest;
    FindSeparator(p, ':', dims);
    ParseRenderedDimensions(w, h);
  }

  /**
   * The cache key of a request. Base64 text holds no ':' and numerals hold no
   * 'x', so ParseKey takes every key apart again into the fingerprint and the
   * two dimensions it was built from.
   */
  function Key(imageData: string, width: nat, height: nat): (k: string)
    ensures ParseKey(k) == Some(KeyParts(Fingerprint(imageData), width, height))
  {
    var p := Fingerprint(imageData);
    var w := Decimal.FromNat(width);
    var h := Decimal.FromNat(height);
    assert forall j :: 0 <= j < |p| ==> p[j] != ':' by {
      forall j | 0 <= j < |p| ensures p[j] != ':' { assert Base64.IsEncodedChar(p[j]); }
    }
    ParseAssembled(p, w, h);
    Decimal.ToNatFromNat(width);
    Decimal.ToNatFromNat(height);
    Namespace + p + ":" + w + "x" + h
  }

  /** Two keys are equal exactly when their fingerprints and both dimensions are. */
  lemma KeyInjective(d1: string, w1: nat, h1: nat, d2: string, w2: nat, h2: nat)
    ensures Key(d1, w1, h1) == Key(d2, w2, h2) <==>
            Fingerprint(d1) == Fingerprint(d2) && w1 == w2 && h1 == h2
  {
    assert ParseKey(Key(d1, w1, h1)) == Some(KeyParts(Fingerprint(d1), w1, h1));
    assert ParseKey(Key(d2, w2, h2)) == Some(KeyParts(Fingerprint(d2), w2, h2));
  }

  /** Equal fingerprints mean equal heads, and the converse. */
  lemma SameFingerprintIffSameHead(d1: string, d2: string)
    ensures Fingerprint(d1) == Fingerprint(d2) <==> Head(d1) == Head(d2)
  {
    FingerprintIsEncodedHead(d1);
    FingerprintIsEncodedHead(d2);
    Base64.EncodeInjective(Head(d1), Head(d2));
  }

  /**
   * Two requests share a cache key exactly when their payloads have the same
   * first 24 UTF-8 bytes (the same bytes, if either is shorter) and the same dimensions.
   */
  lemma SameKeyIffSameHead(d1: string, w1: nat, h1: nat, d2: string, w2: nat, h2: nat)
    ensures Key(d1, w1, h1) == Key(d2, w2, h2) <==> Head(d1) == Head(d2) && w1 == w2 && h1 == h2
  {
    KeyInjective(d1, w1, h1, d2, w2, h2);
    SameFingerprintIffSameHead(d1, d2);
  }

  /** Payloads that agree on their first 24 UTF-8 bytes get the same key, whatever follows. */
  lemma SharedHeadBytesSameKey(d1: string, d2: string, width: nat, height: nat)
    requires |Utf8.Encode(d1)| >= HeadBytes && |Utf8.Encode(d2)| >= HeadBytes
    requires Utf8.Encode(d1)[..HeadBytes] == Utf8.Encode(d2)[..HeadBytes]
    ensures Key(d1, width, height) == Key(d2, width, height)
  {
    SameKeyIffSameHead(d1, width, height, d2, width, height);
  }

  /** The same holds of payloads that agree on their first 24 characters. */
  lemma SharedHeadTextSameKey(d1: string, d2: string, width: nat, height: nat)
    requires |d1| >= HeadBytes && |d2| >= HeadBytes && d1[..HeadBytes] == d2[..HeadBytes]
    ensures Key(d1, width, height) == Key(d2, width, height)
  {
    Utf8.SharedTextHeadSharedBytes(d1, d2, HeadBytes);
    SharedHeadBytesSameKey(d1, d2, width, height);
  }
}
