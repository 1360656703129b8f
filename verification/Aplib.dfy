/**
  * aPLib streams, both variants: the decoder over any tag reader, an encoder for its tokens, and
  * what the tokens mean. A stream ends where its own end mark says, so streams can stand back to back.
  */
module Aplib {
  import opened Wrappers
  import opened Bytes
  import opened Lz
  import opened Bitstream
  import opened Codes

  const REPEAT_OFFSET := 2
  const LONG_OFFSET := 0x7D00
  const MEDIUM_OFFSET := 0x500
  const SHORT_OFFSET := 0x80
  const NEAR_BITS := 4

  datatype Variant = Original | Classic

  /** What the decoding loop carries besides the reader. */
  datatype History = History(output: seq<byte>, last: nat, afterLiteral: bool)

  datatype Turn = Finished | Going(history: History)

  /** A fresh literal takes one offset code for the repeat, so other offsets start one higher. */
  function Bias(variant: Variant, h: History): nat {
    if variant.Classic? && !h.afterLiteral then 2 else 3
  }

  predicate MayRepeat(variant: Variant, h: History) {
    h.afterLiteral || variant.Original?
  }

  /** Far matches are encoded shorter than they are, and so are very near ones. */
  function Extra(offset: nat): nat {
    if offset >= LONG_OFFSET then 2 else if offset >= MEDIUM_OFFSET then 1 else if offset < SHORT_OFFSET then 2 else 0
  }

  // ----- the decoder, on values

  function Matched(h: History, offset: nat, length: nat, size: nat): Option<History> {
    var output :- CopyMatch(h.output, offset, length, size);
    Some(History(output, offset, false))
  }

  function DecodeLiteral(data: seq<byte>, r: Reader, h: History): Option<(Reader, Turn)> {
    var (r, byte) :- Byte(data, r);
    Some((r, Going(History(h.output + [byte], h.last, true))))
  }

  function DecodeFar(data: seq<byte>, r: Reader, variant: Variant, size: nat, h: History): Option<(Reader, Turn)> {
    var (r, high) :- Gamma(data, r, 0);
    if high == REPEAT_OFFSET && MayRepeat(variant, h) then
      var (r, length) :- Gamma(data, r, 0);
      var h :- Matched(h, h.last, length, size);
      Some((r, Going(h)))
    else if high < Bias(variant, h) then None
    else
      var (r, low) :- Byte(data, r);
      var offset := (high - Bias(variant, h)) * 256 % U32 + low;
      var (r, length) :- Gamma(data, r, 0);
      var h :- Matched(h, offset, (length + Extra(offset)) % U32, size);
      Some((r, Going(h)))
  }

  function DecodeShort(data: seq<byte>, r: Reader, size: nat, h: History): Option<(Reader, Turn)> {
    var (r, byte) :- Byte(data, r);
    if byte / 2 == 0 then Some((r, Finished))
    else
      var h :- Matched(h, byte / 2, 2 + byte % 2, size);
      Some((r, Going(h)))
  }

  function NearByte(output: seq<byte>, offset: nat): Option<byte> {
    if offset == 0 then Some(0) else if offset > |output| then None else Some(output[|output| - offset])
  }

  function DecodeNear(data: seq<byte>, r: Reader, h: History): Option<(Reader, Turn)> {
    var (r, offset) :- NumberFrom(data, r, NEAR_BITS, 0);
    var byte :- NearByte(h.output, offset);
    Some((r, Going(History(h.output + [byte], h.last, true))))
  }

  function DecodeTurn(data: seq<byte>, r: Reader, variant: Variant, size: nat, h: History): Option<(Reader, Turn)> {
    var (r, first) :- Bit(data, r);
    if first == 0 then DecodeLiteral(data, r, h)
    else
      var (r, second) :- Bit(data, r);
      if second == 0 then DecodeFar(data, r, variant, size, h)
      else
        var (r, third) :- Bit(data, r);
        if third == 0 then DecodeShort(data, r, size, h) else DecodeNear(data, r, h)
  }

  lemma FarAdvances(data: seq<byte>, r: Reader, variant: Variant, size: nat, h: History)
    ensures var turn := DecodeFar(data, r, variant, size, h); turn.Some? ==> Left(data, turn.value.0) < Left(data, r)
  {
    hide Byte, GammaFrom, Left, Matched, Extra;
    GammaAdvances(data, r, 1, 0);
    if Gamma(data, r, 0).Some? {
      var one := Gamma(data, r, 0).value.0;
      GammaAdvances(data, one, 1, 0);
      ReadingAdvances(data, one);
      if Byte(data, one).Some? {
        GammaAdvances(data, Byte(data, one).value.0, 1, 0);
      }
    }
  }

  lemma NearAdvances(data: seq<byte>, r: Reader, h: History)
    ensures var turn := DecodeNear(data, r, h); turn.Some? ==> Left(data, turn.value.0) <= Left(data, r)
  {
    hide NumberFrom, Left;
    NumberAdvances(data, r, NEAR_BITS, 0);
  }

  /** Every turn reads something, even one that copies nothing because its length wrapped around. */
  lemma TurnAdvances(data: seq<byte>, r: Reader, variant: Variant, size: nat, h: History)
    ensures var turn := DecodeTurn(data, r, variant, size, h); turn.Some? ==> Left(data, turn.value.0) < Left(data, r)
  {
    hide Bit, Byte, Left, DecodeFar, DecodeNear, Matched;
    ReadingAdvances(data, r);
    if Bit(data, r).Some? {
      var one := Bit(data, r).value.0;
      ReadingAdvances(data, one);
      if Bit(data, one).Some? {
        var two := Bit(data, one).value.0;
        FarAdvances(data, two, variant, size, h);
        ReadingAdvances(data, two);
        if Bit(data, two).Some? {
          var three := Bit(data, two).value.0;
          ReadingAdvances(data, three);
          NearAdvances(data, three, h);
        }
      }
    }
  }

  /** A full buffer may only be followed by the end mark. */
  function DecodeTurns(data: seq<byte>, r: Reader, variant: Variant, size: nat, h: History): Option<(Reader, seq<byte>)>
    decreases Left(data, r)
  {
    if |h.output| > size then None
    else
      TurnAdvances(data, r, variant, size, h);
      var (r, turn) :- DecodeTurn(data, r, variant, size, h);
      match turn
      case Finished => Some((r, h.output))
      case Going(h) => DecodeTurns(data, r, variant, size, h)
  }

  function Decompress(data: seq<byte>, r: Reader, size: nat, variant: Variant): Option<(Reader, seq<byte>)> {
    if size > MAX_UNPACKED then None
    else
      var (r, first) :- Byte(data, r);
      DecodeTurns(data, r, variant, size, History([first], 0, true))
  }

  // ----- tokens and what they mean

  datatype Token =
    | Literal(value: byte)
    | Near(distance: nat)
    | Short(offset: nat, length: nat)
    | Far(offset: nat, length: nat)
    | Repeat(length: nat)

  /** Matches are coded two shorter below 128 and from 32000 on, and one shorter from 1280 on. */
  function Bonus(offset: nat): nat {
    if offset <= 127 then 2 else if offset <= 1279 then 0 else if offset <= 31999 then 1 else 2
  }

  /** The number in front of an offset's low byte: one less, in the classic variant, right behind a match. */
  function HighPart(variant: Variant, h: History, offset: nat): nat {
    match variant
    case Original => offset / 256 + 3
    case Classic => offset / 256 + (if h.afterLiteral then 3 else 2)
  }

  lemma BonusIs(offset: nat)
    ensures Extra(offset) == Bonus(offset)
  {
  }

  predicate Allowed(variant: Variant, h: History, t: Token, size: nat) {
    match t
    case Literal(_) => |h.output| < size
    case Near(distance) => |h.output| < size && distance < 16 && distance <= |h.output|
    case Short(offset, length) => 1 <= offset < 128 && 2 <= length < 4 && Reaches(h, offset, length, size)
    case Far(offset, length) => Bonus(offset) + 2 <= length && Reaches(h, offset, length, size)
    case Repeat(length) => (variant.Classic? ==> h.afterLiteral) && 2 <= length && Reaches(h, h.last, length, size)
  }

  predicate Reaches(h: History, offset: nat, length: nat, size: nat) {
    1 <= offset <= |h.output| && |h.output| + length <= size
  }

  function Apply(h: History, t: Token): History
    requires t.Near? ==> t.distance <= |h.output|
    requires t.Short? || t.Far? ==> 1 <= t.offset <= |h.output|
    requires t.Repeat? ==> 1 <= h.last <= |h.output|
  {
    match t
    case Literal(value) => History(h.output + [value], h.last, true)
    case Near(distance) =>
      History(h.output + [if distance == 0 then 0 else h.output[|h.output| - distance]], h.last, true)
    case Short(offset, length) => History(Extend(h.output, offset, length), offset, false)
    case Far(offset, length) => History(Extend(h.output, offset, length), offset, false)
    case Repeat(length) => History(Extend(h.output, h.last, length), h.last, false)
  }

  predicate AllAllowed(variant: Variant, h: History, tokens: seq<Token>, size: nat)
    decreases |tokens|
  {
    tokens == [] || (Allowed(variant, h, tokens[0], size) && AllAllowed(variant, Apply(h, tokens[0]), tokens[1..], size))
  }

  function Expand(variant: Variant, h: History, tokens: seq<Token>, size: nat): seq<byte>
    requires AllAllowed(variant, h, tokens, size)
    decreases |tokens|
  {
    if tokens == [] then h.output else Expand(variant, Apply(h, tokens[0]), tokens[1..], size)
  }

  // ----- the encoder

  const LITERAL_FLAGS: seq<Op> := [Tag(0)]
  const FAR_FLAGS: seq<Op> := [Tag(1), Tag(0)]
  const SHORT_FLAGS: seq<Op> := [Tag(1), Tag(1)] + [Tag(0)]
  const NEAR_FLAGS: seq<Op> := [Tag(1), Tag(1)] + [Tag(1)]

  function Payload(variant: Variant, h: History, t: Token, size: nat): seq<Op>
    requires Allowed(variant, h, t, size)
  {
    match t
    case Literal(value) => [Raw(value)]
    case Near(distance) => NumberCode(distance, 4)
    case Short(offset, length) => [Raw(offset * 2 + (length - 2))]
    case Far(offset, length) =>
      GammaCode(HighPart(variant, h, offset), 0) + [Raw(offset % 256)] + GammaCode(length - Bonus(offset), 0)
    case Repeat(length) => GammaCode(2, 0) + GammaCode(length, 0)
  }

  function Flags(t: Token): seq<Op> {
    match t
    case Literal(_) => LITERAL_FLAGS
    case Near(_) => NEAR_FLAGS
    case Short(_, _) => SHORT_FLAGS
    case _ => FAR_FLAGS
  }

  function EncodeToken(variant: Variant, h: History, t: Token, size: nat): seq<Op>
    requires Allowed(variant, h, t, size)
  {
    Flags(t) + Payload(variant, h, t, size)
  }

  const END: seq<Op> := SHORT_FLAGS + [Raw(0)]

  function EncodeTokens(variant: Variant, h: History, tokens: seq<Token>, size: nat): seq<Op>
    requires AllAllowed(variant, h, tokens, size)
    decreases |tokens|
  {
    if tokens == [] then END
    else EncodeToken(variant, h, tokens[0], size) + EncodeTokens(variant, Apply(h, tokens[0]), tokens[1..], size)
  }

  /** The first byte stands alone, without a flag. */
  predicate Encodable(variant: Variant, first: byte, tokens: seq<Token>, size: nat) {
    1 <= size <= 0x4000_0000 && AllAllowed(variant, History([first], 0, true), tokens, size)
  }

  function Encode(variant: Variant, first: byte, tokens: seq<Token>, size: nat): seq<Op>
    requires Encodable(variant, first, tokens, size)
  {
    [Raw(first)] + EncodeTokens(variant, History([first], 0, true), tokens, size)
  }

  function Meaning(variant: Variant, first: byte, tokens: seq<Token>, size: nat): seq<byte>
    requires Encodable(variant, first, tokens, size)
  {
    Expand(variant, History([first], 0, true), tokens, size)
  }

  // ----- round trips

  lemma OffsetSplits(offset: nat)
    requires offset < U32
    ensures offset / 256 * 256 % U32 + offset % 256 == offset
  {
  }

  lemma FarDecodes(
      data: seq<byte>, r: Reader, variant: Variant, size: nat, h: History, one: Reader, high: nat, low: byte, end: Reader, length: nat)
    requires Gamma(data, r, 0) == Some((one, high)) && high >= Bias(variant, h) && !(high == REPEAT_OFFSET && MayRepeat(variant, h))
    requires Byte(data, one).Some? && Byte(data, one).value.1 == low
    requires Gamma(data, Byte(data, one).value.0, 0) == Some((end, length))
    ensures var offset := (high - Bias(variant, h)) * 256 % U32 + low;
      |h.output| + length + Extra(offset) <= size <= MAX_UNPACKED && 1 <= offset <= |h.output| ==>
        DecodeFar(data, r, variant, size, h) == Some((end, Going(History(Extend(h.output, offset, length + Extra(offset)), offset, false))))
  {
    hide Gamma, Byte, Extend, Extra, Bias;
  }

  lemma FarRoundTrip(data: seq<byte>, r: Reader, variant: Variant, size: nat, h: History, t: Token)
    requires t.Far? && Allowed(variant, h, t, size) && size <= MAX_UNPACKED
    requires Follow(data, r, Payload(variant, h, t, size)).Some?
    ensures DecodeFar(data, r, variant, size, h)
         == Some((Follow(data, r, Payload(variant, h, t, size)).value, Going(Apply(h, t))))
  {
    hide Follow, Gamma, GammaCode, Extend, Byte, Extra, Bonus, DecodeFar;
    var top, low := HighPart(variant, h, t.offset), t.offset % 256;
    var high, length := GammaCode(top, 0), GammaCode(t.length - Bonus(t.offset), 0);
    BonusIs(t.offset);
    FollowBoth(data, r, high + [Raw(low)], length);
    FollowBoth(data, r, high, [Raw(low)]);
    var one := Follow(data, r, high).value;
    GammaIff(data, r, one, top, 0);
    FollowRaw(data, one, low);
    var two := Byte(data, one).value.0;
    GammaIff(data, two, Follow(data, two, length).value, t.length - Bonus(t.offset), 0);
    OffsetSplits(t.offset);
    FarDecodes(data, r, variant, size, h, one, top, low, Follow(data, two, length).value, t.length - Bonus(t.offset));
  }

  lemma RepeatRoundTrip(data: seq<byte>, r: Reader, variant: Variant, size: nat, h: History, t: Token)
    requires t.Repeat? && Allowed(variant, h, t, size) && size <= MAX_UNPACKED
    requires Follow(data, r, Payload(variant, h, t, size)).Some?
    ensures DecodeFar(data, r, variant, size, h)
         == Some((Follow(data, r, Payload(variant, h, t, size)).value, Going(Apply(h, t))))
  {
    hide Follow, Gamma, GammaCode, Extend;
    var high, length := GammaCode(2, 0), GammaCode(t.length, 0);
    FollowBoth(data, r, high, length);
    var one := Follow(data, r, high).value;
    GammaIff(data, r, one, 2, 0);
    GammaIff(data, one, Follow(data, one, length).value, t.length, 0);
  }

  lemma SimpleRoundTrip(data: seq<byte>, r: Reader, variant: Variant, size: nat, h: History, t: Token)
    requires !t.Far? && !t.Repeat? && Allowed(variant, h, t, size)
    requires Follow(data, r, Payload(variant, h, t, size)).Some?
    ensures Some((Follow(data, r, Payload(variant, h, t, size)).value, Going(Apply(h, t))))
         == match t
            case Literal(_) => DecodeLiteral(data, r, h)
            case Near(_) => DecodeNear(data, r, h)
            case _ => DecodeShort(data, r, size, h)
  {
    hide Follow, Extend, Byte, NumberFrom, NumberCode;
    match t {
      case Literal(value) => FollowRaw(data, r, value);
      case Near(distance) =>
        SmallPowers();
        ShiftOfBit(NEAR_BITS);
        NumberReads(data, r, NEAR_BITS, distance, 0);
      case Short(offset, length) => FollowRaw(data, r, offset * 2 + (length - 2));
    }
  }

  /** Where the flags lead the decoder. */
  lemma FlagsLead(data: seq<byte>, r: Reader, variant: Variant, size: nat, h: History, t: Token)
    requires Follow(data, r, Flags(t)).Some?
    ensures var r' := Follow(data, r, Flags(t)).value;
            DecodeTurn(data, r, variant, size, h)
            == match t
               case Literal(_) => DecodeLiteral(data, r', h)
               case Near(_) => DecodeNear(data, r', h)
               case Short(_, _) => DecodeShort(data, r', size, h)
               case _ => DecodeFar(data, r', variant, size, h)
  {
    hide Follow, Bit, DecodeLiteral, DecodeNear, DecodeShort, DecodeFar;
    match t {
      case Literal(_) => FollowTag(data, r, 0);
      case Near(_) => FlagTriple(data, r, 1);
      case Short(_, _) => FlagTriple(data, r, 0);
      case _ => FollowPair(data, r, 1, 0);
    }
  }

  lemma FlagTriple(data: seq<byte>, r: Reader, last: bit)
    requires Follow(data, r, [Tag(1), Tag(1)] + [Tag(last)]).Some?
    ensures Bit(data, r).Some? && Bit(data, r).value.1 == 1
    ensures var one := Bit(data, r).value.0; Bit(data, one).Some? && Bit(data, one).value.1 == 1
    ensures var two := Bit(data, Bit(data, r).value.0).value.0;
            Bit(data, two) == Some((Follow(data, r, [Tag(1), Tag(1)] + [Tag(last)]).value, last))
  {
    hide Bit, Follow;
    FollowBoth(data, r, [Tag(1), Tag(1)], [Tag(last)]);
    FollowPair(data, r, 1, 1);
    FollowTag(data, Follow(data, r, [Tag(1), Tag(1)]).value, last);
  }

  lemma TokenRoundTrip(data: seq<byte>, r: Reader, variant: Variant, size: nat, h: History, t: Token)
    requires Allowed(variant, h, t, size) && size <= MAX_UNPACKED
    requires Follow(data, r, EncodeToken(variant, h, t, size)).Some?
    ensures DecodeTurn(data, r, variant, size, h)
         == Some((Follow(data, r, EncodeToken(variant, h, t, size)).value, Going(Apply(h, t))))
  {
    hide Follow, DecodeTurn, Payload, Flags, Apply, Allowed;
    FollowBoth(data, r, Flags(t), Payload(variant, h, t, size));
    var r' := Follow(data, r, Flags(t)).value;
    FlagsLead(data, r, variant, size, h, t);
    if t.Far? {
      FarRoundTrip(data, r', variant, size, h, t);
    } else if t.Repeat? {
      RepeatRoundTrip(data, r', variant, size, h, t);
    } else {
      SimpleRoundTrip(data, r', variant, size, h, t);
    }
  }

  lemma EndRoundTrip(data: seq<byte>, r: Reader, variant: Variant, size: nat, h: History)
    requires Follow(data, r, END).Some?
    ensures DecodeTurn(data, r, variant, size, h) == Some((Follow(data, r, END).value, Finished))
  {
    hide Follow, DecodeTurn, Byte;
    FollowBoth(data, r, SHORT_FLAGS, [Raw(0)]);
    FlagsLead(data, r, variant, size, h, Short(1, 2));
    FollowRaw(data, Follow(data, r, SHORT_FLAGS).value, 0);
  }

  lemma {:induction false} TokensRoundTrip(
      data: seq<byte>, r: Reader, variant: Variant, size: nat, h: History, tokens: seq<Token>)
    requires |h.output| <= size <= MAX_UNPACKED && AllAllowed(variant, h, tokens, size)
    requires Follow(data, r, EncodeTokens(variant, h, tokens, size)).Some?
    ensures DecodeTurns(data, r, variant, size, h)
         == Some((Follow(data, r, EncodeTokens(variant, h, tokens, size)).value, Expand(variant, h, tokens, size)))
    decreases |tokens|
  {
    hide Follow, DecodeTurn, EncodeToken, Extend;
    TurnAdvances(data, r, variant, size, h);
    if tokens == [] {
      EndRoundTrip(data, r, variant, size, h);
    } else {
      var t := tokens[0];
      var first, rest := EncodeToken(variant, h, t, size), EncodeTokens(variant, Apply(h, t), tokens[1..], size);
      FollowBoth(data, r, first, rest);
      TokenRoundTrip(data, r, variant, size, h, t);
      ApplyFits(variant, h, t, size);
      TokensRoundTrip(data, Follow(data, r, first).value, variant, size, Apply(h, t), tokens[1..]);
    }
  }

  lemma ApplyFits(variant: Variant, h: History, t: Token, size: nat)
    requires Allowed(variant, h, t, size)
    ensures |Apply(h, t).output| <= size
  {
  }

  /** Over any reader, the codes of a token list decode to its meaning and nothing more is read. */
  lemma AplibRoundTrip(data: seq<byte>, r: Reader, variant: Variant, first: byte, tokens: seq<Token>, size: nat)
    requires Encodable(variant, first, tokens, size)
    requires Follow(data, r, Encode(variant, first, tokens, size)).Some?
    ensures Decompress(data, r, size, variant)
         == Some((Follow(data, r, Encode(variant, first, tokens, size)).value, Meaning(variant, first, tokens, size)))
  {
    hide Follow, Byte, DecodeTurns, EncodeTokens, Expand;
    var rest := EncodeTokens(variant, History([first], 0, true), tokens, size);
    FollowBoth(data, r, [Raw(first)], rest);
    FollowRaw(data, r, first);
    TokensRoundTrip(data, Byte(data, r).value.0, variant, size, History([first], 0, true), tokens);
  }

  function Stream(variant: Variant, first: byte, tokens: seq<Token>, size: nat, width: Width): seq<byte>
    requires Encodable(variant, first, tokens, size)
  {
    Emit(Encode(variant, first, tokens, size), 0, width)
  }

  /** Wherever a stream stands, it decodes to its meaning and the reader stops right behind it. */
  lemma StreamDecodes(
      data: seq<byte>, start: nat, variant: Variant, first: byte, tokens: seq<Token>, size: nat, width: Width)
    requires Encodable(variant, first, tokens, size)
    requires StartsAt(data, start, Stream(variant, first, tokens, size, width))
    ensures var result := Decompress(data, FreshReader(start, width), size, variant);
            && result.Some?
            && result.value.1 == Meaning(variant, first, tokens, size)
            && result.value.0.next == start + |Stream(variant, first, tokens, size, width)|
  {
    hide Follow, Decompress, Encode, Meaning, Emit, StartsAt;
    StreamRoundTrip(data, start, width, Encode(variant, first, tokens, size));
    AplibRoundTrip(data, FreshReader(start, width), variant, first, tokens, size);
  }

  // ----- streams back to back

  datatype Source = Source(first: byte, tokens: seq<Token>, size: nat)

  predicate AllEncodable(variant: Variant, sources: seq<Source>) {
    forall s :: s in sources ==> Encodable(variant, s.first, s.tokens, s.size)
  }

  /** Every stream starts on the byte behind the one before it. */
  function DecodeStreams(data: seq<byte>, start: nat, sizes: seq<nat>, variant: Variant): Option<(nat, seq<seq<byte>>)>
    decreases |sizes|
  {
    if sizes == [] then Some((start, []))
    else
      var (r, output) :- Decompress(data, FreshReader(start, Narrow), sizes[0], variant);
      var (end, rest) :- DecodeStreams(data, r.next, sizes[1..], variant);
      Some((end, [output] + rest))
  }

  function Streams(variant: Variant, sources: seq<Source>): seq<byte>
    requires AllEncodable(variant, sources)
  {
    if sources == [] then []
    else Stream(variant, sources[0].first, sources[0].tokens, sources[0].size, Narrow) + Streams(variant, sources[1..])
  }

  function Meanings(variant: Variant, sources: seq<Source>): seq<seq<byte>>
    requires AllEncodable(variant, sources)
  {
    if sources == [] then [] else [Meaning(variant, sources[0].first, sources[0].tokens, sources[0].size)] + Meanings(variant, sources[1..])
  }

  function Sizes(sources: seq<Source>): seq<nat> {
    if sources == [] then [] else [sources[0].size] + Sizes(sources[1..])
  }

  /** Concatenated streams decode one after the other to the list of originals. */
  lemma {:induction false} BackToBack(data: seq<byte>, start: nat, variant: Variant, sources: seq<Source>)
    requires AllEncodable(variant, sources) && StartsAt(data, start, Streams(variant, sources))
    ensures DecodeStreams(data, start, Sizes(sources), variant)
         == Some((start + |Streams(variant, sources)|, Meanings(variant, sources)))
    decreases |sources|
  {
    hide Decompress, Stream, Meaning, StartsAt, Encodable;
    if sources != [] {
      var s := sources[0];
      assert s in sources;
      var stream := Stream(variant, s.first, s.tokens, s.size, Narrow);
      StartsWith(data, start, stream, Streams(variant, sources[1..]));
      StreamDecodes(data, start, variant, s.first, s.tokens, s.size, Narrow);
      BackToBack(data, start + |stream|, variant, sources[1..]);
      assert Sizes(sources)[1..] == Sizes(sources[1..]);
    }
  }
}
