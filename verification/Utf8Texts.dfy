/** Which byte strings names may be: exactly the encodings of lists of Unicode scalar values, section 3 of RFC 3629. */
module Utf8Texts {
  import opened Wrappers
  import opened Bytes
  import opened Texts

  /** A code point that is not half of a surrogate pair. */
  predicate Scalar(c: nat) {
    c < 0xD800 || 0xE000 <= c < 0x11_0000
  }

  /** Six bits behind the mark of a continuation byte. */
  function Tail(bits: nat): byte {
    0x80 + bits % 0x40
  }

  function Encoded(c: nat): (r: seq<byte>)
    requires Scalar(c)
    ensures r != []
  {
    if c < 0x80 then [c]
    else if c < 0x800 then [0xC0 + c / 0x40, Tail(c)]
    else if c < 0x1_0000 then [0xE0 + c / 0x1000, Tail(c / 0x40), Tail(c)]
    else [0xF0 + c / 0x4_0000, Tail(c / 0x1000), Tail(c / 0x40), Tail(c)]
  }

  function EncodedAll(text: seq<nat>): seq<byte>
    requires forall c :: c in text ==> Scalar(c)
  {
    if text == [] then [] else Encoded(text[0]) + EncodedAll(text[1..])
  }

  function Bits(b: byte): (r: nat)
    ensures r < 0x40
  {
    b % 0x40
  }

  /** The bits behind the marks. */
  function Decoded(bytes: seq<byte>): nat
    requires bytes != [] && 1 <= CharacterSize(bytes) <= |bytes|
  {
    var first: nat := bytes[0];
    if CharacterSize(bytes) == 1 then first
    else if CharacterSize(bytes) == 2 then first % 0x20 * 0x40 + Bits(bytes[1])
    else if CharacterSize(bytes) == 3 then (first % 0x10 * 0x40 + Bits(bytes[1])) * 0x40 + Bits(bytes[2])
    else ((first % 8 * 0x40 + Bits(bytes[1])) * 0x40 + Bits(bytes[2])) * 0x40 + Bits(bytes[3])
  }

  lemma CharacterDecodes(bytes: seq<byte>)
    requires bytes != [] && 1 <= CharacterSize(bytes) <= |bytes|
    ensures Scalar(Decoded(bytes)) && Encoded(Decoded(bytes)) == bytes[..CharacterSize(bytes)]
  {
    hide Decoded, Encoded, Scalar;
    if CharacterSize(bytes) == 1 {
      OneDecodes(bytes);
    } else if CharacterSize(bytes) == 2 {
      TwoDecode(bytes);
    } else if CharacterSize(bytes) == 3 {
      ThreeDecode(bytes);
    } else {
      FourDecode(bytes);
    }
  }

  lemma OneDecodes(bytes: seq<byte>)
    requires bytes != [] && CharacterSize(bytes) == 1 <= |bytes|
    ensures Scalar(Decoded(bytes)) && Encoded(Decoded(bytes)) == bytes[..1]
  {
    hide Bits;
  }

  lemma TwoDecode(bytes: seq<byte>)
    requires bytes != [] && CharacterSize(bytes) == 2 <= |bytes|
    ensures Scalar(Decoded(bytes)) && Encoded(Decoded(bytes)) == bytes[..2]
  {
    hide Bits;
    IsTail(bytes[1]);
    LeadOfTwo(bytes[0]);
    Split(bytes[0] % 0x20, Bits(bytes[1]));
  }

  lemma ThreeDecode(bytes: seq<byte>)
    requires bytes != [] && CharacterSize(bytes) == 3 <= |bytes|
    ensures Scalar(Decoded(bytes)) && Encoded(Decoded(bytes)) == bytes[..3]
  {
    hide Bits;
    IsTail(bytes[1]);
    IsTail(bytes[2]);
    LeadOfThree(bytes[0]);
    SplitThree(bytes[0] % 0x10, Bits(bytes[1]), Bits(bytes[2]));
  }

  lemma FourDecode(bytes: seq<byte>)
    requires bytes != [] && CharacterSize(bytes) == 4 <= |bytes|
    ensures Scalar(Decoded(bytes)) && Encoded(Decoded(bytes)) == bytes[..4]
  {
    hide Bits;
    IsTail(bytes[1]);
    IsTail(bytes[2]);
    IsTail(bytes[3]);
    LeadOfFour(bytes[0]);
    SplitFour(bytes[0] % 8, Bits(bytes[1]), Bits(bytes[2]), Bits(bytes[3]));
  }

  lemma LeadOfTwo(first: byte)
    ensures 0xC0 <= first < 0xE0 ==> first == 0xC0 + first % 0x20
  {
  }

  lemma LeadOfThree(first: byte)
    ensures 0xE0 <= first < 0xF0 ==> first == 0xE0 + first % 0x10
  {
  }

  lemma LeadOfFour(first: byte)
    ensures 0xF0 <= first < 0xF8 ==> first == 0xF0 + first % 8
  {
  }

  lemma IsTail(b: byte)
    ensures 0x80 <= b < 0xC0 ==> b == 0x80 + Bits(b) && (b < 0xA0 <==> Bits(b) < 0x20) && (b < 0x90 <==> Bits(b) < 0x10)
  {
  }

  lemma Split(high: nat, low: nat)
    requires low < 0x40
    ensures (high * 0x40 + low) / 0x40 == high && (high * 0x40 + low) % 0x40 == low
  {
  }

  lemma SplitThree(a: nat, b: nat, c: nat)
    requires b < 0x40 && c < 0x40
    ensures var x := (a * 0x40 + b) * 0x40 + c; x / 0x1000 == a && x / 0x40 % 0x40 == b && x % 0x40 == c
  {
    var x := (a * 0x40 + b) * 0x40 + c;
    Split(a * 0x40 + b, c);
    Split(a, b);
    assert x / 0x1000 == x / 0x40 / 0x40;
  }

  lemma SplitFour(a: nat, b: nat, c: nat, d: nat)
    requires b < 0x40 && c < 0x40 && d < 0x40
    ensures var x := ((a * 0x40 + b) * 0x40 + c) * 0x40 + d;
      x / 0x4_0000 == a && x / 0x1000 % 0x40 == b && x / 0x40 % 0x40 == c && x % 0x40 == d
  {
    var x := ((a * 0x40 + b) * 0x40 + c) * 0x40 + d;
    Split((a * 0x40 + b) * 0x40 + c, d);
    SplitThree(a, b, c);
    assert x / 0x1000 == x / 0x40 / 0x40 && x / 0x4_0000 == x / 0x40 / 0x1000;
  }

  lemma CharacterEncodes(c: nat, rest: seq<byte>)
    requires Scalar(c)
    ensures CharacterSize(Encoded(c) + rest) == |Encoded(c)|
  {
    var bytes := Encoded(c) + rest;
    assert bytes[0] == Encoded(c)[0];
  }

  /** The text is UTF-8 if and only if it is the encoding of some list of scalar values. */
  lemma {:induction false} Utf8Iff(bytes: seq<byte>)
    ensures Utf8(bytes) <==> exists text: seq<nat> :: (forall c :: c in text ==> Scalar(c)) && EncodedAll(text) == bytes
    decreases |bytes|
  {
    hide CharacterSize, Encoded, Scalar;
    if Utf8(bytes) {
      var text := TextOf(bytes);
    }
    forall text: seq<nat> | (forall c :: c in text ==> Scalar(c)) && EncodedAll(text) == bytes
      ensures Utf8(bytes)
    {
      EncodingIsUtf8(text);
    }
  }

  lemma {:induction false} TextOf(bytes: seq<byte>) returns (text: seq<nat>)
    requires Utf8(bytes)
    ensures (forall c :: c in text ==> Scalar(c)) && EncodedAll(text) == bytes
    decreases |bytes|
  {
    hide CharacterSize, Encoded, Scalar, Decoded;
    if bytes == [] {
      text := [];
    } else {
      CharacterDecodes(bytes);
      var rest := TextOf(bytes[CharacterSize(bytes)..]);
      text := [Decoded(bytes)] + rest;
    }
  }

  lemma {:induction false} EncodingIsUtf8(text: seq<nat>)
    requires forall c :: c in text ==> Scalar(c)
    ensures Utf8(EncodedAll(text))
    decreases |text|
  {
    hide CharacterSize, Encoded, Scalar;
    if text != [] {
      assert text[0] in text && forall c :: c in text[1..] ==> c in text;
      var rest := EncodedAll(text[1..]);
      EncodingIsUtf8(text[1..]);
      CharacterEncodes(text[0], rest);
      assert (Encoded(text[0]) + rest)[|Encoded(text[0])|..] == rest;
    }
  }
}
