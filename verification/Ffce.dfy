/** FFCE streams: Fibonacci-coded offsets, gamma-coded lengths, and a size in front. */
module Ffce {
  import opened Wrappers
  import opened Bytes
  import opened Lz
  import opened Bitstream
  import opened Codes
  import Fibonacci

  const HEADER := 4
  const FLOOR_AFTER_LITERAL := 3
  const FLOOR_AFTER_MATCH := 2
  const LOW_OFFSET_BITS := 6
  const FAR_OFFSET := 0x781
  const FARTHER_OFFSET := 0x8001

  datatype History = History(output: seq<byte>, last: nat, floor: nat)

  datatype Turn = Finished | Going(history: History)

  /** Matches from far away are longer than their code says. */
  function Extra(offset: nat): nat {
    (if offset >= FAR_OFFSET then 1 else 0) + (if offset >= FARTHER_OFFSET then 1 else 0)
  }

  // ----- the decoder, on values

  function DecodeOffset(data: seq<byte>, r: Reader, high: nat): Option<(Reader, nat)> {
    if high * 64 >= U32 then None
    else
      var (r, low) :- NumberFrom(data, r, LOW_OFFSET_BITS, 0);
      if high * 64 + low + 1 >= U32 then None else Some((r, high * 64 + low + 1))
  }

  function DecodeMatch(data: seq<byte>, r: Reader, size: nat, h: History): Option<(Reader, Turn)> {
    var (r, code) :- Fibonacci.Read(data, r);
    if code < h.floor then
      var (r, length) :- Gamma(data, r, 0);
      var output :- CopyMatch(h.output, h.last, length, size);
      Some((r, Going(History(output, h.last, FLOOR_AFTER_MATCH))))
    else
      var (r, offset) :- DecodeOffset(data, r, code - h.floor);
      var (r, length) :- Gamma(data, r, 0);
      var output :- CopyMatch(h.output, offset, (length + Extra(offset)) % U32, size);
      Some((r, Going(History(output, offset, FLOOR_AFTER_MATCH))))
  }

  function DecodeTurn(data: seq<byte>, r: Reader, size: nat, h: History): Option<(Reader, Turn)> {
    var (r, flag) :- Bit(data, r);
    if flag == 0 then
      if |h.output| >= size then None
      else
        var (r, byte) :- Byte(data, r);
        Some((r, Going(History(h.output + [byte], h.last, FLOOR_AFTER_LITERAL))))
    else if |h.output| == size then Some((r, Finished))
    else DecodeMatch(data, r, size, h)
  }

  lemma MatchAdvances(data: seq<byte>, r: Reader, size: nat, h: History)
    ensures var turn := DecodeMatch(data, r, size, h); turn.Some? ==> Left(data, turn.value.0) < Left(data, r)
  {
    hide Fibonacci.FibonacciFrom, NumberFrom, GammaFrom, Left, CopyMatch, Extra;
    Fibonacci.FibonacciAdvances(data, r, 0, 1, 1);
    var code := Fibonacci.Read(data, r);
    if code.Some? {
      GammaAdvances(data, code.value.0, 1, 0);
      NumberAdvances(data, code.value.0, LOW_OFFSET_BITS, 0);
      if code.value.1 >= h.floor {
        var offset := DecodeOffset(data, code.value.0, code.value.1 - h.floor);
        if offset.Some? {
          GammaAdvances(data, offset.value.0, 1, 0);
        }
      }
    }
  }

  /** Every turn reads something, even one that copies nothing because its length wrapped around. */
  lemma TurnAdvances(data: seq<byte>, r: Reader, size: nat, h: History)
    ensures var turn := DecodeTurn(data, r, size, h); turn.Some? ==> Left(data, turn.value.0) < Left(data, r)
  {
    hide Bit, Byte, Left, DecodeMatch;
    ReadingAdvances(data, r);
    if Bit(data, r).Some? {
      ReadingAdvances(data, Bit(data, r).value.0);
      MatchAdvances(data, Bit(data, r).value.0, size, h);
    }
  }

  function DecodeTurns(data: seq<byte>, r: Reader, size: nat, h: History): Option<(Reader, seq<byte>)>
    decreases Left(data, r)
  {
    TurnAdvances(data, r, size, h);
    var (r, turn) :- DecodeTurn(data, r, size, h);
    match turn
    case Finished => Some((r, h.output))
    case Going(next) => DecodeTurns(data, r, size, next)
  }

  function Start(first: byte): History {
    History([first], 0, FLOOR_AFTER_LITERAL)
  }

  function Decompress(source: seq<byte>, size: nat): Option<seq<byte>> {
    if |source| < HEADER || U32At(source, 0) != size then None
    else if size == 0 then Some([])
    else if size > MAX_UNPACKED then None
    else
      var (r, first) :- Byte(source, FreshReader(HEADER, Wide));
      var (_, output) :- DecodeTurns(source, r, size, Start(first));
      Some(output)
  }

  // ----- tokens and what they mean

  datatype Token = Literal(value: byte) | Match(offset: nat, length: nat) | Repeat(length: nat)

  /** A match from more than 1920 bytes away is one byte longer than its code, and from more than 32768 two. */
  function Bonus(offset: nat): nat {
    if offset <= 1920 then 0 else if offset <= 32768 then 1 else 2
  }

  lemma BonusIs(offset: nat)
    ensures Extra(offset) == Bonus(offset)
  {
  }

  /** Only a literal leaves room below the floor for the repeat. */
  predicate Allowed(h: History, t: Token, size: nat) {
    match t
    case Literal(_) => |h.output| < size
    case Match(offset, length) => 1 <= offset <= |h.output| && length >= 2 + Bonus(offset) && |h.output| + length <= size
    case Repeat(length) =>
      h.floor == 3 && 1 <= h.last <= |h.output| && length >= 2 && |h.output| + length <= size
  }

  function OffsetOf(h: History, t: Token): nat
    requires !t.Literal?
  {
    if t.Match? then t.offset else h.last
  }

  function Apply(h: History, t: Token): History
    requires !t.Literal? ==> 1 <= OffsetOf(h, t) <= |h.output|
  {
    match t
    case Literal(value) => History(h.output + [value], h.last, 3)
    case _ => History(Extend(h.output, OffsetOf(h, t), t.length), OffsetOf(h, t), 2)
  }

  predicate Fills(h: History, tokens: seq<Token>, size: nat)
    decreases |tokens|
  {
    if tokens == [] then |h.output| == size
    else Allowed(h, tokens[0], size) && Fills(Apply(h, tokens[0]), tokens[1..], size)
  }

  function Expand(h: History, tokens: seq<Token>, size: nat): (out: seq<byte>)
    requires Fills(h, tokens, size)
    ensures |out| == size
    decreases |tokens|
  {
    if tokens == [] then h.output else Expand(Apply(h, tokens[0]), tokens[1..], size)
  }

  // ----- the encoder

  function Payload(h: History, t: Token, size: nat): seq<Op>
    requires Allowed(h, t, size) && 2 <= h.floor
  {
    match t
    case Literal(value) => [Raw(value)]
    case Repeat(length) => Fibonacci.Code(2) + GammaCode(length, 0)
    case Match(offset, length) =>
      Fibonacci.Code((offset - 1) / 64 + h.floor)
      + (NumberCode((offset - 1) % 64, 6) + GammaCode(length - Bonus(offset), 0))
  }

  function EncodeToken(h: History, t: Token, size: nat): seq<Op>
    requires Allowed(h, t, size) && 2 <= h.floor
  {
    [Tag(if t.Literal? then 0 else 1)] + Payload(h, t, size)
  }

  function EncodeTokens(h: History, tokens: seq<Token>, size: nat): seq<Op>
    requires Fills(h, tokens, size) && 2 <= h.floor
    decreases |tokens|
  {
    if tokens == [] then [Tag(1)]
    else EncodeToken(h, tokens[0], size) + EncodeTokens(Apply(h, tokens[0]), tokens[1..], size)
  }

  /** Before the tokens come a first byte, which counts as a literal, and no offset yet. */
  function Opening(first: byte): History {
    History([first], 0, 3)
  }

  function Compress(first: byte, tokens: seq<Token>, size: nat): seq<byte>
    requires Fills(Opening(first), tokens, size)
  {
    U32Bytes(size) + Emit([Raw(first)] + EncodeTokens(Opening(first), tokens, size), 0, Wide)
  }

  // ----- round trips

  lemma OffsetRoundTrip(data: seq<byte>, r: Reader, offset: nat)
    requires 1 <= offset < U32 && Follow(data, r, NumberCode((offset - 1) % 64, 6)).Some?
    ensures DecodeOffset(data, r, (offset - 1) / 64)
         == Some((Follow(data, r, NumberCode((offset - 1) % 64, 6)).value, offset))
  {
    hide Follow, NumberFrom, NumberCode;
    SmallPowers();
    ShiftOfBit(LOW_OFFSET_BITS);
    NumberReads(data, r, LOW_OFFSET_BITS, (offset - 1) % 64, 0);
  }

  lemma MatchRoundTrip(data: seq<byte>, r: Reader, size: nat, h: History, t: Token)
    requires !t.Literal? && Allowed(h, t, size) && size <= MAX_UNPACKED && 2 <= h.floor <= 3
    requires Follow(data, r, Payload(h, t, size)).Some?
    ensures DecodeMatch(data, r, size, h) == Some((Follow(data, r, Payload(h, t, size)).value, Going(Apply(h, t))))
  {
    hide Follow, Fibonacci.Read, Fibonacci.Code, Gamma, GammaCode, NumberCode, DecodeOffset, Extend, Extra, Bonus;
    BonusIs(if t.Match? then t.offset else 0);
    if t.Repeat? {
      var high, length := Fibonacci.Code(2), GammaCode(t.length, 0);
      FollowBoth(data, r, high, length);
      var one := Follow(data, r, high).value;
      Fibonacci.CodeIff(data, r, one, 2);
      GammaIff(data, one, Follow(data, one, length).value, t.length, 0);
    } else {
      var code := (t.offset - 1) / 64 + h.floor;
      var high := Fibonacci.Code(code);
      var low, length := NumberCode((t.offset - 1) % 64, 6), GammaCode(t.length - Bonus(t.offset), 0);
      FollowBoth(data, r, high, low + length);
      var one := Follow(data, r, high).value;
      FollowBoth(data, one, low, length);
      var two := Follow(data, one, low).value;
      Fibonacci.CodeIff(data, r, one, code);
      OffsetRoundTrip(data, one, t.offset);
      GammaIff(data, two, Follow(data, two, length).value, t.length - Bonus(t.offset), 0);
    }
  }

  lemma TokenRoundTrip(data: seq<byte>, r: Reader, size: nat, h: History, t: Token)
    requires Allowed(h, t, size) && size <= MAX_UNPACKED && 2 <= h.floor <= 3
    requires Follow(data, r, EncodeToken(h, t, size)).Some?
    ensures DecodeTurn(data, r, size, h) == Some((Follow(data, r, EncodeToken(h, t, size)).value, Going(Apply(h, t))))
  {
    hide Follow, Bit, Byte, DecodeMatch, Extend;
    var flag := if t.Literal? then 0 else 1;
    FollowBoth(data, r, [Tag(flag)], Payload(h, t, size));
    FollowTag(data, r, flag);
    var one := Bit(data, r).value.0;
    if t.Literal? {
      FollowRaw(data, one, t.value);
    } else {
      MatchRoundTrip(data, one, size, h, t);
    }
  }

  lemma {:induction false} TokensRoundTrip(data: seq<byte>, r: Reader, size: nat, h: History, tokens: seq<Token>)
    requires size <= MAX_UNPACKED && Fills(h, tokens, size) && 2 <= h.floor <= 3
    requires Follow(data, r, EncodeTokens(h, tokens, size)).Some?
    ensures DecodeTurns(data, r, size, h)
         == Some((Follow(data, r, EncodeTokens(h, tokens, size)).value, Expand(h, tokens, size)))
    decreases |tokens|
  {
    hide Follow, Bit, DecodeMatch, EncodeToken, Extend;
    if tokens == [] {
      FollowTag(data, r, 1);
    } else {
      var t := tokens[0];
      var first := EncodeToken(h, t, size);
      FollowBoth(data, r, first, EncodeTokens(Apply(h, t), tokens[1..], size));
      TokenRoundTrip(data, r, size, h, t);
      TokensRoundTrip(data, Follow(data, r, first).value, size, Apply(h, t), tokens[1..]);
    }
  }

  /** Every token list that fills its output has a stream, which decodes to the tokens' meaning. */
  lemma FfceRoundTrip(first: byte, tokens: seq<Token>, size: nat, behind: seq<byte>)
    requires 1 <= size <= 0x4000_0000 && Fills(Opening(first), tokens, size)
    ensures Decompress(Compress(first, tokens, size) + behind, size) == Some(Expand(Opening(first), tokens, size))
  {
    hide Follow, DecodeTurns, EncodeTokens, Emit, Expand, Byte;
    var ops := [Raw(first)] + EncodeTokens(Opening(first), tokens, size);
    var stream := Emit(ops, 0, Wide);
    var data := Compress(first, tokens, size) + behind;
    assert data[HEADER..HEADER + |stream|] == stream;
    assert data[0..4] == U32Bytes(size);
    U32RoundTrip(data, 0, size);
    StreamRoundTrip(data, HEADER, Wide, ops);
    var r := FreshReader(HEADER, Wide);
    FollowBoth(data, r, [Raw(first)], EncodeTokens(Opening(first), tokens, size));
    FollowRaw(data, r, first);
    TokensRoundTrip(data, Byte(data, r).value.0, size, Opening(first), tokens);
  }
}
