/** NRV2B, NRV2D and NRV2E streams: the decoder, an encoder for its tokens, and what they mean. */
module Nrv {
  import opened Wrappers
  import opened Bytes
  import opened Lz
  import opened Bitstream
  import opened Codes

  const END_MARKER := 0xFFFF_FFFF
  const REPEAT_OFFSET := 2
  const OFFSET_BIAS := 3
  const NRV2B_FAR := 0xD00
  const NRV2DE_FAR := 0x500

  datatype Variant = B | D | E

  datatype History = History(output: seq<byte>, last: nat)

  const START := History([], 1)

  datatype Turn = Finished | Going(history: History)

  /** NRV2D and NRV2E fold the first length bit into the offset. */
  datatype Offset = EndMark | Back(offset: nat, lengthBit: Option<bit>)

  // ----- the decoder, on values

  function High(data: seq<byte>, r: Reader, variant: Variant): Option<(Reader, nat)> {
    if variant.B? then Gamma(data, r, 1) else Paired(data, r)
  }

  function DecodeOffset(data: seq<byte>, r: Reader, variant: Variant, last: nat): Option<(Reader, Offset)> {
    var (r, high) :- High(data, r, variant);
    if high == REPEAT_OFFSET then
      if variant.B? then Some((r, Back(last, None)))
      else
        var (r, bit) :- Bit(data, r);
        Some((r, Back(last, Some(bit))))
    else if high < OFFSET_BIAS || (high - OFFSET_BIAS) * 256 >= U32 then None
    else
      var (r, low) :- Byte(data, r);
      var value := (high - OFFSET_BIAS) * 256 + low;
      if value >= U32 then None
      else if value == END_MARKER then Some((r, EndMark))
      else if variant.B? then Some((r, Back(value + 1, None)))
      else Some((r, Back(value / 2 + 1, Some(1 - value % 2))))
  }

  /** The sums wrap around in 32 bits; it makes no difference that they do so only once, in the match. */
  function DecodeLength(data: seq<byte>, r: Reader, variant: Variant, lengthBit: Option<bit>): Option<(Reader, nat)> {
    if variant.E? then
      if lengthBit == Some(1) then
        var (r, bit) :- Bit(data, r);
        Some((r, 1 + bit))
      else
        var (r, short) :- Bit(data, r);
        if short == 1 then
          var (r, bit) :- Bit(data, r);
          Some((r, 3 + bit))
        else
          var (r, rest) :- Gamma(data, r, 1);
          Some((r, rest + 3))
    else if lengthBit.None? then
      var (r, first) :- Bit(data, r);
      DecodeLengthRest(data, r, first)
    else DecodeLengthRest(data, r, lengthBit.value)
  }

  function DecodeLengthRest(data: seq<byte>, r: Reader, first: bit): Option<(Reader, nat)> {
    var (r, second) :- Bit(data, r);
    if first * 2 + second != 0 then Some((r, first * 2 + second))
    else
      var (r, rest) :- Gamma(data, r, 1);
      Some((r, rest + 2))
  }

  function Far(variant: Variant, offset: nat): nat {
    if offset > (if variant.B? then NRV2B_FAR else NRV2DE_FAR) then 1 else 0
  }

  function DecodeMatch(data: seq<byte>, r: Reader, variant: Variant, size: nat, h: History): Option<(Reader, Turn)> {
    var (r, offset) :- DecodeOffset(data, r, variant, h.last);
    if offset.EndMark? then Some((r, Finished))
    else
      var (r, length) :- DecodeLength(data, r, variant, offset.lengthBit);
      var output :- CopyMatch(h.output, offset.offset, (length + Far(variant, offset.offset) + 1) % U32, size);
      Some((r, Going(History(output, offset.offset))))
  }

  function DecodeTurn(data: seq<byte>, r: Reader, variant: Variant, size: nat, h: History): Option<(Reader, Turn)> {
    var (r, literal) :- Bit(data, r);
    if literal == 0 then DecodeMatch(data, r, variant, size, h)
    else if |h.output| >= size then None
    else
      var (r, byte) :- Byte(data, r);
      Some((r, Going(h.(output := h.output + [byte]))))
  }

  lemma OffsetAdvances(data: seq<byte>, r: Reader, variant: Variant, last: nat)
    ensures var read := DecodeOffset(data, r, variant, last); read.Some? ==> Left(data, read.value.0) < Left(data, r)
  {
    hide Bit, Byte, GammaFrom, PairedFrom, Left;
    GammaAdvances(data, r, 1, 1);
    PairedAdvances(data, r, 1);
    if High(data, r, variant).Some? {
      ReadingAdvances(data, High(data, r, variant).value.0);
    }
  }

  lemma RestAdvances(data: seq<byte>, r: Reader, first: bit)
    ensures var read := DecodeLengthRest(data, r, first); read.Some? ==> Left(data, read.value.0) < Left(data, r)
  {
    hide Bit, GammaFrom, Left;
    ReadingAdvances(data, r);
    if Bit(data, r).Some? {
      GammaAdvances(data, Bit(data, r).value.0, 1, 1);
    }
  }

  lemma LengthAdvances(data: seq<byte>, r: Reader, variant: Variant, lengthBit: Option<bit>)
    ensures var read := DecodeLength(data, r, variant, lengthBit); read.Some? ==> Left(data, read.value.0) < Left(data, r)
  {
    hide Bit, GammaFrom, Left, DecodeLengthRest;
    ReadingAdvances(data, r);
    if Bit(data, r).Some? {
      var one := Bit(data, r).value.0;
      ReadingAdvances(data, one);
      GammaAdvances(data, one, 1, 1);
      RestAdvances(data, one, Bit(data, r).value.1);
    }
    if lengthBit.Some? {
      RestAdvances(data, r, lengthBit.value);
    }
  }

  /** Every turn reads something, even one that copies nothing because its length wrapped around. */
  lemma TurnAdvances(data: seq<byte>, r: Reader, variant: Variant, size: nat, h: History)
    ensures var turn := DecodeTurn(data, r, variant, size, h); turn.Some? ==> Left(data, turn.value.0) < Left(data, r)
  {
    hide Bit, Byte, Left, DecodeOffset, DecodeLength, CopyMatch;
    ReadingAdvances(data, r);
    if Bit(data, r).Some? {
      var one := Bit(data, r).value.0;
      ReadingAdvances(data, one);
      OffsetAdvances(data, one, variant, h.last);
      var offset := DecodeOffset(data, one, variant, h.last);
      if offset.Some? && offset.value.1.Back? {
        LengthAdvances(data, offset.value.0, variant, offset.value.1.lengthBit);
      }
    }
  }

  /** The end mark is accepted only when the output is complete. */
  function DecodeTurns(data: seq<byte>, r: Reader, variant: Variant, size: nat, h: History): Option<(Reader, seq<byte>)>
    decreases Left(data, r)
  {
    TurnAdvances(data, r, variant, size, h);
    var (r, turn) :- DecodeTurn(data, r, variant, size, h);
    match turn
    case Finished => if |h.output| == size then Some((r, h.output)) else None
    case Going(next) => DecodeTurns(data, r, variant, size, next)
  }

  function Decompress(source: seq<byte>, size: nat, variant: Variant): Option<(Reader, seq<byte>)> {
    if size > MAX_UNPACKED then None else DecodeTurns(source, FreshReader(0, Wide), variant, size, START)
  }

  // ----- length codes

  /** The length bit that travels with the offset, and the bits behind it. */
  function LengthBit(variant: Variant, length: nat): bit {
    if variant.E? then (if length <= 2 then 1 else 0) else if 2 <= length <= 3 then 1 else 0
  }

  function LengthRest(variant: Variant, length: nat): seq<Op>
    requires length >= 1
  {
    if variant.E? then
      if length <= 2 then [Tag(length - 1)]
      else if length <= 4 then [Tag(1), Tag(length - 3)]
      else [Tag(0)] + GammaCode(length - 3, 1)
    else if length <= 3 then [Tag(length % 2)]
    else [Tag(0)] + GammaCode(length - 2, 1)
  }

  predicate Codable(variant: Variant, length: nat) {
    1 <= length < U32 + if variant.E? then 3 else 2
  }

  /** What a gamma code behind a zero flag adds up to. */
  lemma GammaBehindZero(data: seq<byte>, r: Reader, end: Reader, value: nat)
    ensures (Bit(data, r).Some? && Bit(data, r).value.1 == 0 && Gamma(data, Bit(data, r).value.0, 1) == Some((end, value)))
       <==> 2 <= value < U32 && Follow(data, r, [Tag(0)] + GammaCode(value, 1)) == Some(end)
  {
    hide Bit, Follow, Gamma, GammaCode;
    var one := Bit(data, r);
    if one.Some? {
      GammaIff(data, one.value.0, end, value, 1);
    }
    if 2 <= value < U32 {
      FollowBoth(data, r, [Tag(0)], GammaCode(value, 1));
      FollowTag(data, r, 0);
    }
  }

  lemma GammaAtLeastTwo(data: seq<byte>, r: Reader)
    ensures Bit(data, r).Some? && Gamma(data, Bit(data, r).value.0, 1).Some? ==> Gamma(data, Bit(data, r).value.0, 1).value.1 >= 2
  {
    hide Bit;
  }

  lemma LengthRestIffE(data: seq<byte>, r: Reader, end: Reader, first: bit, length: nat)
    ensures DecodeLength(data, r, E, Some(first)) == Some((end, length))
       <==> Codable(E, length) && LengthBit(E, length) == first && Follow(data, r, LengthRest(E, length)) == Some(end)
  {
    hide Bit, Follow, Gamma, GammaCode;
    if length >= 3 {
      GammaBehindZero(data, r, end, length - 3);
    }
    var one := Bit(data, r);
    if one.Some? {
      var two := Bit(data, one.value.0);
      assert two.Some? ==> two.value.1 < 2;
    }
    GammaAtLeastTwo(data, r);
    if length < 5 {
      FollowTag(data, r, 0);
      FollowTag(data, r, 1);
      FollowPair(data, r, 1, 0);
      FollowPair(data, r, 1, 1);
    }
  }

  lemma LengthRestIffBD(data: seq<byte>, r: Reader, end: Reader, variant: Variant, first: bit, length: nat)
    requires !variant.E?
    ensures DecodeLengthRest(data, r, first) == Some((end, length))
       <==> Codable(variant, length) && LengthBit(variant, length) == first
            && Follow(data, r, LengthRest(variant, length)) == Some(end)
  {
    hide Bit, Follow, Gamma, GammaCode;
    if length >= 2 {
      GammaBehindZero(data, r, end, length - 2);
    }
    GammaAtLeastTwo(data, r);
    if length < 4 {
      FollowTag(data, r, 0);
      FollowTag(data, r, 1);
    }
  }

  /** Every length of at least one has exactly one code in each variant, and nothing else decodes. */
  lemma LengthIff(data: seq<byte>, r: Reader, end: Reader, variant: Variant, lengthBit: Option<bit>, length: nat)
    requires variant.B? <==> lengthBit.None?
    ensures DecodeLength(data, r, variant, lengthBit) == Some((end, length))
       <==> Codable(variant, length)
            && (if variant.B? then Follow(data, r, [Tag(LengthBit(variant, length))] + LengthRest(variant, length)) == Some(end)
                else LengthBit(variant, length) == lengthBit.value && Follow(data, r, LengthRest(variant, length)) == Some(end))
  {
    hide Bit, Follow, LengthRest, DecodeLengthRest;
    if variant.B? {
      var one := Bit(data, r);
      if one.Some? {
        LengthRestIffBD(data, one.value.0, end, variant, one.value.1, length);
      }
      if Codable(variant, length) {
        FollowBoth(data, r, [Tag(LengthBit(variant, length))], LengthRest(variant, length));
        FollowTag(data, r, LengthBit(variant, length));
      }
    } else if variant.D? {
      LengthRestIffBD(data, r, end, variant, lengthBit.value, length);
    } else {
      LengthRestIffE(data, r, end, lengthBit.value, length);
    }
  }

  // ----- tokens and what they mean

  datatype Token = Literal(value: byte) | Match(offset: nat, length: nat) | Repeat(length: nat)

  predicate Allowed(variant: Variant, h: History, t: Token, size: nat) {
    match t
    case Literal(_) => |h.output| < size
    case Match(offset, length) => Reaches(variant, h, offset, length, size)
    case Repeat(length) => Reaches(variant, h, h.last, length, size)
  }

  /** Matches from more than 3328 bytes away in NRV2B, and 1280 in the others, are one byte longer than coded. */
  function Bonus(variant: Variant, offset: nat): nat {
    match variant
    case B => if offset <= 3328 then 0 else 1
    case _ => if offset <= 1280 then 0 else 1
  }

  lemma BonusIs(variant: Variant, offset: nat)
    ensures Far(variant, offset) == Bonus(variant, offset)
  {
  }

  /** The shortest match is two bytes, or three from far away. */
  predicate Reaches(variant: Variant, h: History, offset: nat, length: nat, size: nat) {
    1 <= offset <= |h.output| && |h.output| + length <= size && length >= 2 + Bonus(variant, offset)
  }

  function OffsetOf(h: History, t: Token): nat
    requires !t.Literal?
  {
    if t.Match? then t.offset else h.last
  }

  function Apply(h: History, t: Token): History
    requires !t.Literal? ==> 1 <= OffsetOf(h, t) <= |h.output|
  {
    match t
    case Literal(value) => h.(output := h.output + [value])
    case _ => History(Extend(h.output, OffsetOf(h, t), t.length), OffsetOf(h, t))
  }

  /** The list is allowed step by step and fills the output exactly. */
  predicate Fills(variant: Variant, h: History, tokens: seq<Token>, size: nat)
    decreases |tokens|
  {
    if tokens == [] then |h.output| == size
    else Allowed(variant, h, tokens[0], size) && Fills(variant, Apply(h, tokens[0]), tokens[1..], size)
  }

  function Expand(variant: Variant, h: History, tokens: seq<Token>, size: nat): (out: seq<byte>)
    requires Fills(variant, h, tokens, size)
    ensures |out| == size
    decreases |tokens|
  {
    if tokens == [] then h.output else Expand(variant, Apply(h, tokens[0]), tokens[1..], size)
  }

  // ----- the encoder

  function HighCode(variant: Variant, value: nat): seq<Op>
    requires value >= 2
  {
    if variant.B? then GammaCode(value, 1) else PairedCode(value)
  }

  function CodedLength(variant: Variant, h: History, t: Token): nat
    requires !t.Literal? && t.length >= 2 + Bonus(variant, OffsetOf(h, t))
  {
    t.length - Bonus(variant, OffsetOf(h, t)) - 1
  }

  /** The number the offset's two parts spell. */
  function OffsetValue(variant: Variant, offset: nat, lengthBit: bit): nat
    requires offset >= 1
  {
    if variant.B? then offset - 1 else (offset - 1) * 2 + (1 - lengthBit)
  }

  function OffsetCode(variant: Variant, value: nat): seq<Op> {
    HighCode(variant, value / 256 + 3) + [Raw(value % 256)]
  }

  function EncodeToken(variant: Variant, h: History, t: Token, size: nat): seq<Op>
    requires Allowed(variant, h, t, size)
  {
    if t.Literal? then [Tag(1)] + [Raw(t.value)]
    else
      var length := CodedLength(variant, h, t);
      var first := LengthBit(variant, length);
      var lead := if t.Repeat? then HighCode(variant, 2) else OffsetCode(variant, OffsetValue(variant, t.offset, first));
      var between := if t.Repeat? || variant.B? then [Tag(first)] else [];
      [Tag(0)] + (lead + (between + LengthRest(variant, length)))
  }

  function End(variant: Variant): seq<Op> {
    [Tag(0)] + OffsetCode(variant, 0xFFFF_FFFF)
  }

  function EncodeTokens(variant: Variant, h: History, tokens: seq<Token>, size: nat): seq<Op>
    requires Fills(variant, h, tokens, size)
    decreases |tokens|
  {
    if tokens == [] then End(variant)
    else EncodeToken(variant, h, tokens[0], size) + EncodeTokens(variant, Apply(h, tokens[0]), tokens[1..], size)
  }

  // ----- round trips

  lemma HighIff(data: seq<byte>, r: Reader, end: Reader, variant: Variant, value: nat)
    ensures High(data, r, variant) == Some((end, value))
       <==> 2 <= value < U32 && Follow(data, r, HighCode(variant, value)) == Some(end)
  {
    hide Follow, Gamma, Paired, GammaCode, PairedCode;
    if variant.B? {
      GammaIff(data, r, end, value, 1);
    } else {
      PairedIff(data, r, end, value);
    }
  }

  lemma OffsetRoundTrip(data: seq<byte>, r: Reader, variant: Variant, last: nat, value: nat)
    requires value < U32 && Follow(data, r, OffsetCode(variant, value)).Some?
    ensures var end := Follow(data, r, OffsetCode(variant, value)).value;
            DecodeOffset(data, r, variant, last)
            == Some((end, if value == END_MARKER then EndMark
                          else if variant.B? then Back(value + 1, None)
                          else Back(value / 2 + 1, Some(1 - value % 2))))
  {
    hide Follow, High, HighCode, Byte, Bit;
    var high := HighCode(variant, value / 256 + 3);
    FollowBoth(data, r, high, [Raw(value % 256)]);
    var one := Follow(data, r, high).value;
    HighIff(data, r, one, variant, value / 256 + 3);
    FollowRaw(data, one, value % 256);
  }

  lemma RepeatOffsetRoundTrip(data: seq<byte>, r: Reader, variant: Variant, last: nat)
    requires Follow(data, r, HighCode(variant, 2)).Some?
    ensures var r' := Follow(data, r, HighCode(variant, 2)).value;
            DecodeOffset(data, r, variant, last)
            == if variant.B? then Some((r', Back(last, None)))
               else if Bit(data, r').None? then None
               else Some((Bit(data, r').value.0, Back(last, Some(Bit(data, r').value.1))))
  {
    hide Follow, High, HighCode, Byte, Bit;
    HighIff(data, r, Follow(data, r, HighCode(variant, 2)).value, variant, 2);
  }

  lemma MatchDecodes(
      data: seq<byte>, r: Reader, variant: Variant, size: nat, h: History, r1: Reader, back: Offset, end: Reader, length: nat)
    requires back.Back? && DecodeOffset(data, r, variant, h.last) == Some((r1, back))
    requires DecodeLength(data, r1, variant, back.lengthBit) == Some((end, length))
    requires 1 <= back.offset <= |h.output| && |h.output| + length + Far(variant, back.offset) + 1 <= size <= MAX_UNPACKED
    ensures DecodeMatch(data, r, variant, size, h)
         == Some((end, Going(History(Extend(h.output, back.offset, length + Far(variant, back.offset) + 1), back.offset))))
  {
    hide DecodeOffset, DecodeLength, Extend;
  }

  /** The offset of a match or repeat, and then its length. */
  lemma MatchRoundTrip(data: seq<byte>, r: Reader, variant: Variant, size: nat, h: History, t: Token)
    requires !t.Literal? && Allowed(variant, h, t, size) && size <= MAX_UNPACKED
    requires Follow(data, r, EncodeToken(variant, h, t, size)[1..]).Some?
    ensures DecodeMatch(data, r, variant, size, h)
         == Some((Follow(data, r, EncodeToken(variant, h, t, size)[1..]).value, Going(Apply(h, t))))
  {
    hide Follow, Bit, Byte, DecodeOffset, DecodeLength, DecodeMatch, OffsetCode, HighCode, LengthRest, Extend, LengthBit, Far, Bonus;
    BonusIs(variant, OffsetOf(h, t));
    var length := CodedLength(variant, h, t);
    var first, rest := LengthBit(variant, length), LengthRest(variant, length);
    var lead := if t.Repeat? then HighCode(variant, 2) else OffsetCode(variant, OffsetValue(variant, t.offset, first));
    var between := if t.Repeat? || variant.B? then [Tag(first)] else [];
    assert EncodeToken(variant, h, t, size)[1..] == lead + (between + rest);
    FollowBoth(data, r, lead, between + rest);
    var r1 := Follow(data, r, lead).value;
    var end := Follow(data, r1, between + rest).value;
    if t.Repeat? {
      RepeatOffsetRoundTrip(data, r, variant, h.last);
    } else {
      OffsetRoundTrip(data, r, variant, h.last, OffsetValue(variant, t.offset, first));
    }
    var back := Back(OffsetOf(h, t), if variant.B? then None else Some(first));
    if variant.B? {
      LengthIff(data, r1, end, variant, None, length);
      MatchDecodes(data, r, variant, size, h, r1, back, end, length);
    } else if t.Repeat? {
      FollowBoth(data, r1, [Tag(first)], rest);
      FollowTag(data, r1, first);
      LengthIff(data, Bit(data, r1).value.0, end, variant, Some(first), length);
      MatchDecodes(data, r, variant, size, h, Bit(data, r1).value.0, back, end, length);
    } else {
      assert between + rest == rest;
      LengthIff(data, r1, end, variant, Some(first), length);
      MatchDecodes(data, r, variant, size, h, r1, back, end, length);
    }
  }

  lemma TokenRoundTrip(data: seq<byte>, r: Reader, variant: Variant, size: nat, h: History, t: Token)
    requires Allowed(variant, h, t, size) && size <= MAX_UNPACKED
    requires Follow(data, r, EncodeToken(variant, h, t, size)).Some?
    ensures DecodeTurn(data, r, variant, size, h)
         == Some((Follow(data, r, EncodeToken(variant, h, t, size)).value, Going(Apply(h, t))))
  {
    hide Follow, Bit, Byte, DecodeMatch, LengthRest, LengthBit, OffsetCode, HighCode, Extend;
    var code := EncodeToken(variant, h, t, size);
    assert code == [code[0]] + code[1..];
    FollowBoth(data, r, [code[0]], code[1..]);
    FollowTag(data, r, code[0].bit);
    if t.Literal? {
      assert code[1..] == [Raw(t.value)];
      FollowRaw(data, Bit(data, r).value.0, t.value);
    } else {
      MatchRoundTrip(data, Bit(data, r).value.0, variant, size, h, t);
    }
  }

  lemma EndRoundTrip(data: seq<byte>, r: Reader, variant: Variant, size: nat, h: History)
    requires Follow(data, r, End(variant)).Some?
    ensures DecodeTurn(data, r, variant, size, h) == Some((Follow(data, r, End(variant)).value, Finished))
  {
    hide Follow, Bit, DecodeOffset, OffsetCode;
    FollowBoth(data, r, [Tag(0)], OffsetCode(variant, 0xFFFF_FFFF));
    FollowTag(data, r, 0);
    OffsetRoundTrip(data, Bit(data, r).value.0, variant, h.last, 0xFFFF_FFFF);
  }

  lemma {:induction false} TokensRoundTrip(
      data: seq<byte>, r: Reader, variant: Variant, size: nat, h: History, tokens: seq<Token>)
    requires size <= MAX_UNPACKED && Fills(variant, h, tokens, size)
    requires Follow(data, r, EncodeTokens(variant, h, tokens, size)).Some?
    ensures DecodeTurns(data, r, variant, size, h)
         == Some((Follow(data, r, EncodeTokens(variant, h, tokens, size)).value, Expand(variant, h, tokens, size)))
    decreases |tokens|
  {
    hide Follow, DecodeTurn, EncodeToken, End, Extend;
    if tokens == [] {
      EndRoundTrip(data, r, variant, size, h);
    } else {
      var t := tokens[0];
      var first := EncodeToken(variant, h, t, size);
      FollowBoth(data, r, first, EncodeTokens(variant, Apply(h, t), tokens[1..], size));
      TokenRoundTrip(data, r, variant, size, h, t);
      TokensRoundTrip(data, Follow(data, r, first).value, variant, size, Apply(h, t), tokens[1..]);
    }
  }

  /** Nothing is written yet, and a repeat would go back one byte. */
  const OPENING := History([], 1)

  function Compress(variant: Variant, tokens: seq<Token>, size: nat): seq<byte>
    requires Fills(variant, OPENING, tokens, size)
  {
    Emit(EncodeTokens(variant, OPENING, tokens, size), 0, Wide)
  }

  /** A token list's stream, with anything behind it, decodes to the tokens' meaning. */
  lemma NrvRoundTrip(variant: Variant, tokens: seq<Token>, size: nat, behind: seq<byte>)
    requires size <= 0x4000_0000 && Fills(variant, OPENING, tokens, size)
    ensures var result := Decompress(Compress(variant, tokens, size) + behind, size, variant);
            && result.Some?
            && result.value.1 == Expand(variant, OPENING, tokens, size)
            && result.value.0.next == |Compress(variant, tokens, size)|
  {
    hide Follow, DecodeTurns, EncodeTokens, Emit, Expand;
    var stream := Compress(variant, tokens, size);
    var data := stream + behind;
    assert data[0..|stream|] == stream;
    StreamRoundTrip(data, 0, Wide, EncodeTokens(variant, OPENING, tokens, size));
    TokensRoundTrip(data, FreshReader(0, Wide), variant, size, OPENING, tokens);
  }
}
