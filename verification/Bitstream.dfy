/**
  * Readers of streams that mix tag bits with whole bytes.
  *
  * `ByteTags` keeps one byte of tags with a sentinel bit behind the unread ones; `WordTags` keeps a
  * 32-bit little-endian word and a count. Both refine the same plain reader, which holds the unread
  * tag bits as a list, and both read back whatever `Emit` lays out.
  */
module Bitstream {
  import opened Wrappers
  import opened Bytes

  type bit = b: nat | b < 2

  const SENTINEL := 0x80
  const WORD_BITS := 32

  datatype Reader =
    | ByteTags(next: nat, tag: nat)
    | WordTags(next: nat, buffer: nat, left: nat)

  function Byte(data: seq<byte>, r: Reader): Option<(Reader, byte)> {
    if r.next < |data| then Some((r.(next := r.next + 1), data[r.next])) else None
  }

  function Bit(data: seq<byte>, r: Reader): Option<(Reader, bit)> {
    match r
    case ByteTags(next, tag) =>
      if tag * 2 % 256 != 0 then Some((ByteTags(next, tag * 2 % 256), tag / 128 % 2))
      else if next >= |data| then None
      else Some((ByteTags(next + 1, (data[next] as int) * 2 % 256 + 1), data[next] / 128))
    case WordTags(next, buffer, left) =>
      if left > 0 then Some((WordTags(next, buffer, left - 1), HighBits(buffer, left - 1) % 2))
      else if next + 4 > |data| then None
      else Some((WordTags(next + 4, U32At(data, next), WORD_BITS - 1), HighBits(U32At(data, next), WORD_BITS - 1) % 2))
  }

  // ----- what is left to read

  /** How many of the upper `width` bits stand in front of the sentinel, the lowest one. */
  function Unread(tag: nat, width: nat): nat
    decreases width
  {
    if width == 0 then 0 else if tag % 2 == 1 then width else Unread(tag / 2, width - 1)
  }

  /** The bits left: those of the bytes, and those already fetched. */
  function Left(data: seq<byte>, r: Reader): nat {
    var bytes: nat := if r.next < |data| then |data| - r.next else 0;
    match r
    case ByteTags(_, tag) => 8 * bytes + Unread(tag, 7)
    case WordTags(_, _, left) => 8 * bytes + left
  }

  /** Each bit and each byte that is read leaves less. */
  lemma ReadingAdvances(data: seq<byte>, r: Reader)
    ensures Bit(data, r).Some? ==> Left(data, Bit(data, r).value.0) < Left(data, r)
    ensures Byte(data, r).Some? ==> Left(data, Byte(data, r).value.0) < Left(data, r)
  {
    hide HighBits, U32At;
    if r.ByteTags? && r.tag * 2 % 256 != 0 {
      UnreadShrinks(r.tag);
    }
  }

  lemma UnreadShrinks(tag: nat)
    requires tag * 2 % 256 != 0
    ensures Unread(tag * 2 % 256, 7) < Unread(tag, 7)
  {
    var doubled, over := tag * 2 % 256, tag * 2 / 256;
    SevenPlaces(2 * over);
    UpperBitsCountNot(doubled, 2 * over, 7);
    assert Unread(tag * 2, 7) == Unread(tag, 6);
    if Unread(tag, 7) == 0 {
      var whole := NothingUnread(tag, 7);
      SevenPlaces(whole);
      assert false;
    }
    OneLess(tag, 7);
  }

  lemma SevenPlaces(x: nat)
    ensures Shift(x, 7) == 128 * x
  {
    assert Shift(x, 1) == 2 * x;
    assert Shift(x, 2) == 4 * x;
    assert Shift(x, 3) == 8 * x;
    assert Shift(x, 4) == 16 * x;
    assert Shift(x, 5) == 32 * x;
    assert Shift(x, 6) == 64 * x;
  }

  lemma {:induction false} UpperBitsCountNot(tag: nat, above: nat, width: nat)
    ensures Unread(tag + Shift(above, width), width) == Unread(tag, width)
    decreases width
  {
    if width > 0 {
      var more := Shift(above, width - 1);
      assert (tag + 2 * more) / 2 == tag / 2 + more;
      UpperBitsCountNot(tag / 2, above, width - 1);
    }
  }

  lemma {:induction false} NothingUnread(tag: nat, width: nat) returns (whole: nat)
    requires Unread(tag, width) == 0
    ensures tag == Shift(whole, width)
    decreases width
  {
    if width == 0 {
      whole := tag;
    } else {
      whole := NothingUnread(tag / 2, width - 1);
    }
  }

  lemma {:induction false} OneLess(tag: nat, width: nat)
    requires width > 0 && Unread(tag, width) > 0
    ensures Unread(tag, width - 1) == Unread(tag, width) - 1
    decreases width
  {
    if width > 1 && tag % 2 == 0 {
      OneLess(tag / 2, width - 1);
    }
  }

  // ----- the plain reader

  datatype Plain = Plain(next: nat, pending: seq<bit>)

  /** Tags come a byte or a word at a time. */
  datatype Width = Narrow | Wide {
    function Bits(): nat {
      if Narrow? then 8 else WORD_BITS
    }

    function Size(): nat {
      Bits() / 8
    }
  }

  function BitsOf(value: nat, count: nat): (r: seq<bit>)
    ensures |r| == count
  {
    if count == 0 then [] else BitsOf(value / 2, count - 1) + [value % 2]
  }

  /** The bits of the unit at `at`, in the order they are used. */
  function UnitBits(data: seq<byte>, at: nat, width: Width): (r: seq<bit>)
    requires at + width.Size() <= |data|
    ensures |r| == width.Bits()
  {
    if width.Narrow? then BitsOf(data[at], 8) else BitsOf(U32At(data, at), WORD_BITS)
  }

  function PlainBit(data: seq<byte>, p: Plain, width: Width): Option<(Plain, bit)> {
    if p.pending != [] then Some((Plain(p.next, p.pending[1..]), p.pending[0]))
    else if p.next + width.Size() > |data| then None
    else
      var bits := UnitBits(data, p.next, width);
      Some((Plain(p.next + width.Size(), bits[1..]), bits[0]))
  }

  function PlainByte(data: seq<byte>, p: Plain): Option<(Plain, byte)> {
    if p.next < |data| then Some((p.(next := p.next + 1), data[p.next])) else None
  }

  /** The number a bit string spells, its first bit highest. */
  function Spell(bits: seq<bit>): nat {
    if bits == [] then 0 else 2 * Spell(bits[..|bits| - 1]) + bits[|bits| - 1]
  }

  /** The bits from weight 2^top down, then a one that marks the end. */
  function WithSentinel(bits: seq<bit>, top: nat): nat
    requires |bits| <= top
  {
    if bits == [] then Pow2(top) else bits[0] * Pow2(top) + WithSentinel(bits[1..], top - 1)
  }

  /** The reader stands where the plain one does and has the same bits left. */
  predicate Refines(r: Reader, p: Plain) {
    && r.next == p.next
    && match r
       case ByteTags(_, tag) => |p.pending| < 8 && tag == WithSentinel(p.pending, 7)
       case WordTags(_, buffer, left) => |p.pending| == left && left < WORD_BITS && p.pending == BitsOf(buffer, left)
  }

  function WidthOf(r: Reader): Width {
    if r.ByteTags? then Narrow else Wide
  }

  lemma {:induction false} SpellBound(bits: seq<bit>)
    ensures Spell(bits) < Pow2(|bits|)
  {
    if bits != [] {
      SpellBound(bits[..|bits| - 1]);
    }
  }

  lemma {:induction false} BitsOfSpell(bits: seq<bit>)
    ensures BitsOf(Spell(bits), |bits|) == bits
  {
    if bits != [] {
      BitsOfSpell(bits[..|bits| - 1]);
      assert bits == bits[..|bits| - 1] + [bits[|bits| - 1]];
    }
  }

  lemma {:induction false} SpellOfBits(value: nat, count: nat)
    requires value < Pow2(count)
    ensures Spell(BitsOf(value, count)) == value
    decreases count
  {
    if count > 0 {
      SpellOfBits(value / 2, count - 1);
      var bits := BitsOf(value, count);
      assert bits[..count - 1] == BitsOf(value / 2, count - 1);
    }
  }

  lemma {:induction false} BitsOfHead(value: nat, count: nat)
    requires count > 0
    ensures BitsOf(value, count)[0] == HighBits(value, count - 1) % 2
    ensures BitsOf(value, count)[1..] == BitsOf(value, count - 1)
    decreases count
  {
    if count > 1 {
      BitsOfHead(value / 2, count - 1);
      assert BitsOf(value, count)[1..] == BitsOf(value / 2, count - 1)[1..] + [value % 2];
    }
  }

  lemma {:induction false} WithSentinelDoubles(bits: seq<bit>, top: nat)
    requires |bits| <= top
    ensures WithSentinel(bits, top + 1) == 2 * WithSentinel(bits, top)
    ensures 0 < WithSentinel(bits, top) < 2 * Pow2(top)
    decreases |bits|
  {
    if bits != [] {
      WithSentinelDoubles(bits[1..], top - 1);
    }
  }

  lemma BitRefines(data: seq<byte>, r: Reader, p: Plain)
    requires Refines(r, p)
    ensures var read, plain := Bit(data, r), PlainBit(data, p, WidthOf(r));
            && read.Some? == plain.Some?
            && (read.Some? ==> read.value.1 == plain.value.1 && Refines(read.value.0, plain.value.0)
                               && WidthOf(read.value.0) == WidthOf(r))
  {
    match r {
      case ByteTags(next, tag) => ByteBitRefines(data, r, p);
      case WordTags(next, buffer, left) =>
        if left > 0 {
          BitsOfHead(buffer, left);
        } else if next + 4 <= |data| {
          BitsOfHead(U32At(data, next), WORD_BITS);
        }
    }
  }

  lemma ByteBitRefines(data: seq<byte>, r: Reader, p: Plain)
    requires Refines(r, p) && r.ByteTags?
    ensures var read, plain := Bit(data, r), PlainBit(data, p, Narrow);
            && read.Some? == plain.Some?
            && (read.Some? ==> read.value.1 == plain.value.1 && Refines(read.value.0, plain.value.0)
                               && read.value.0.ByteTags?)
  {
    SmallPowers();
    if p.pending != [] {
      WithSentinelDoubles(p.pending[1..], 6);
    } else if r.next < |data| {
      FreshTag(data[r.next]);
    }
  }

  /** After a refill the seven unread bits stand before the sentinel. */
  lemma FreshTag(b: byte)
    ensures var bits := BitsOf(b, 8); bits[0] == b / 128 && (b as int) * 2 % 256 + 1 == WithSentinel(bits[1..], 7)
  {
    hide WithSentinel, HighBits, LowBits, BitsOf, Pow2, Shift;
    BitsOfHead(b, 8);
    HighBitsOfByte(b);
    SentinelOfBits(b, 7);
    LowBitsSplit(b, 7);
    LowBitsBound(b, 7);
    SmallPowers();
    ShiftSeven(b / 128);
  }

  lemma HighBitsOfByte(b: byte)
    ensures HighBits(b, 7) == b / 128
  {
    assert HighBits(b, 7) == HighBits(b / 2, 6) == HighBits(b / 4, 5) == HighBits(b / 8, 4);
    assert HighBits(b / 8, 4) == HighBits(b / 16, 3) == HighBits(b / 32, 2) == HighBits(b / 64, 1);
  }

  lemma {:induction false} LowBitsHead(value: nat, count: nat)
    requires count > 0
    ensures LowBits(value, count) == HighBits(value, count - 1) % 2 * Pow2(count - 1) + LowBits(value, count - 1)
    decreases count
  {
    if count > 1 {
      LowBitsHead(value / 2, count - 1);
    }
  }

  lemma {:induction false} SentinelOfBits(value: nat, count: nat)
    ensures WithSentinel(BitsOf(value, count), count) == 2 * LowBits(value, count) + 1
    decreases count
  {
    if count > 0 {
      BitsOfHead(value, count);
      LowBitsHead(value, count);
      SentinelOfBits(value, count - 1);
    }
  }

  lemma ShiftSeven(x: nat)
    ensures Shift(x, 7) == 128 * x
  {
    assert Shift(x, 1) == 2 * x && Shift(x, 2) == 2 * Shift(x, 1) && Shift(x, 3) == 2 * Shift(x, 2);
    assert Shift(x, 4) == 2 * Shift(x, 3) && Shift(x, 5) == 2 * Shift(x, 4) && Shift(x, 6) == 2 * Shift(x, 5);
  }

  lemma {:induction false} LowBitsSplit(x: nat, n: nat)
    ensures x == Shift(HighBits(x, n), n) + LowBits(x, n)
    decreases n
  {
    if n > 0 {
      LowBitsSplit(x / 2, n - 1);
    }
  }

  // ----- laying bits and bytes out

  datatype Op = Tag(bit: bit) | Raw(byte: byte)

  /** The next `count` tag bits, with zeros once there are no more. */
  function NextBits(ops: seq<Op>, count: nat): (r: seq<bit>)
    ensures |r| == count
  {
    if count == 0 then []
    else if ops == [] then [0] + NextBits([], count - 1)
    else if ops[0].Tag? then [ops[0].bit] + NextBits(ops[1..], count - 1)
    else NextBits(ops[1..], count)
  }

  function UnitOf(bits: seq<bit>, width: Width): (r: seq<byte>)
    requires |bits| == width.Bits()
    ensures |r| == width.Size()
  {
    var value := Spell(bits);
    if width.Narrow? then [value % 256] else U32Bytes(value)
  }

  /** Each unit of tags is written where the reader will ask for it, `left` bits being at hand already. */
  function Emit(ops: seq<Op>, left: nat, width: Width): seq<byte> {
    if ops == [] then []
    else if ops[0].Raw? then [ops[0].byte] + Emit(ops[1..], left, width)
    else if left > 0 then Emit(ops[1..], left - 1, width)
    else UnitOf(NextBits(ops, width.Bits()), width) + Emit(ops[1..], width.Bits() - 1, width)
  }

  /** Reads the kinds of `ops` in turn and checks that every value is the one listed. */
  function Follow(data: seq<byte>, r: Reader, ops: seq<Op>): Option<Reader>
    decreases |ops|
  {
    if ops == [] then Some(r)
    else
      match ops[0]
      case Tag(expected) =>
        var (r, got) :- Bit(data, r);
        if got == expected then Follow(data, r, ops[1..]) else None
      case Raw(expected) =>
        var (r, got) :- Byte(data, r);
        if got == expected then Follow(data, r, ops[1..]) else None
  }

  lemma {:induction false} FollowBoth(data: seq<byte>, r: Reader, first: seq<Op>, second: seq<Op>)
    ensures Follow(data, r, first + second)
         == if Follow(data, r, first).None? then None else Follow(data, Follow(data, r, first).value, second)
    decreases |first|
  {
    if first == [] {
      assert first + second == second;
    } else {
      assert (first + second)[1..] == first[1..] + second;
      match first[0] {
        case Tag(_) =>
          var read := Bit(data, r);
          if read.Some? {
            FollowBoth(data, read.value.0, first[1..], second);
          }
        case Raw(_) =>
          var read := Byte(data, r);
          if read.Some? {
            FollowBoth(data, read.value.0, first[1..], second);
          }
      }
    }
  }

  lemma UnitRoundTrip(data: seq<byte>, at: nat, bits: seq<bit>, width: Width)
    requires |bits| == width.Bits() && StartsAt(data, at, UnitOf(bits, width))
    ensures UnitBits(data, at, width) == bits
  {
    hide Pow2, Spell;
    SpellBound(bits);
    BitsOfSpell(bits);
    SmallPowers();
    TwoToThe32();
    if width.Narrow? {
      assert data[at] == data[at..at + 1][0];
    } else {
      U32RoundTrip(data, at, Spell(bits));
    }
  }

  /** The plain reader takes the next bit, from a fresh unit if it has none left. */
  lemma PlainTakes(data: seq<byte>, p: Plain, ops: seq<Op>, width: Width)
    requires ops != [] && ops[0].Tag? && p.pending == NextBits(ops, |p.pending|) && |p.pending| < width.Bits()
    requires StartsAt(data, p.next, Emit(ops, |p.pending|, width))
    ensures var read := PlainBit(data, p, width);
            && read.Some? && read.value.1 == ops[0].bit
            && var rest := read.value.0;
            && |rest.pending| < width.Bits()
            && rest.pending == NextBits(ops[1..], |rest.pending|)
            && StartsAt(data, rest.next, Emit(ops[1..], |rest.pending|, width))
            && rest.next + |Emit(ops[1..], |rest.pending|, width)| == p.next + |Emit(ops, |p.pending|, width)|
  {
    hide UnitOf, UnitBits, StartsAt;
    if p.pending == [] {
      var bits := NextBits(ops, width.Bits());
      StartsWith(data, p.next, UnitOf(bits, width), Emit(ops[1..], width.Bits() - 1, width));
      StartsAtEnds(data, p.next, UnitOf(bits, width));
      UnitRoundTrip(data, p.next, bits, width);
    }
  }

  lemma StartsAtEnds(data: seq<byte>, at: nat, bytes: seq<byte>)
    requires StartsAt(data, at, bytes)
    ensures at + |bytes| <= |data|
  {
  }

  /** What is emitted is read back, and reading stops right behind it whatever follows. */
  lemma {:induction false} EmitRoundTrip(data: seq<byte>, r: Reader, p: Plain, ops: seq<Op>)
    requires Refines(r, p) && p.pending == NextBits(ops, |p.pending|)
    requires StartsAt(data, p.next, Emit(ops, |p.pending|, WidthOf(r)))
    ensures Follow(data, r, ops).Some?
    ensures Follow(data, r, ops).value.next == p.next + |Emit(ops, |p.pending|, WidthOf(r))|
    ensures WidthOf(Follow(data, r, ops).value) == WidthOf(r)
    decreases |ops|
  {
    if ops == [] {
    } else if ops[0].Raw? {
      StartsWith(data, p.next, [ops[0].byte], Emit(ops[1..], |p.pending|, WidthOf(r)));
      assert data[p.next] == data[p.next..p.next + 1][0];
      EmitRoundTrip(data, Byte(data, r).value.0, p.(next := p.next + 1), ops[1..]);
    } else {
      hide Bit, PlainBit, StartsAt, Emit;
      BitRefines(data, r, p);
      PlainTakes(data, p, ops, WidthOf(r));
      var read, plain := Bit(data, r), PlainBit(data, p, WidthOf(r));
      EmitRoundTrip(data, read.value.0, plain.value.0, ops[1..]);
    }
  }

  function FreshReader(start: nat, width: Width): Reader {
    if width.Narrow? then ByteTags(start, SENTINEL) else WordTags(start, 0, 0)
  }

  lemma FreshRefines(start: nat, width: Width)
    ensures Refines(FreshReader(start, width), Plain(start, []))
  {
    assert [] + [1] == [1 as bit];
    assert Spell([1]) == 1 by { assert [1 as bit][..0] == []; }
    ShiftOfBit(7);
    SmallPowers();
  }

  /** A fresh reader follows any emitted stream to its exact end. */
  lemma StreamRoundTrip(data: seq<byte>, start: nat, width: Width, ops: seq<Op>)
    requires StartsAt(data, start, Emit(ops, 0, width))
    ensures var r := Follow(data, FreshReader(start, width), ops);
            r.Some? && r.value.next == start + |Emit(ops, 0, width)| && WidthOf(r.value) == width
  {
    FreshRefines(start, width);
    EmitRoundTrip(data, FreshReader(start, width), Plain(start, []), ops);
  }

  // ----- any interleaving of reads

  datatype Request = WantBit | WantByte

  function ReadAll(data: seq<byte>, r: Reader, requests: seq<Request>): Option<seq<Op>>
    decreases |requests|
  {
    if requests == [] then Some([])
    else if requests[0].WantBit? then
      var (r, bit) :- Bit(data, r);
      var rest :- ReadAll(data, r, requests[1..]);
      Some([Tag(bit)] + rest)
    else
      var (r, byte) :- Byte(data, r);
      var rest :- ReadAll(data, r, requests[1..]);
      Some([Raw(byte)] + rest)
  }

  function PlainReadAll(data: seq<byte>, p: Plain, width: Width, requests: seq<Request>): Option<seq<Op>>
    decreases |requests|
  {
    if requests == [] then Some([])
    else if requests[0].WantBit? then
      var (p, bit) :- PlainBit(data, p, width);
      var rest :- PlainReadAll(data, p, width, requests[1..]);
      Some([Tag(bit)] + rest)
    else
      var (p, byte) :- PlainByte(data, p);
      var rest :- PlainReadAll(data, p, width, requests[1..]);
      Some([Raw(byte)] + rest)
  }

  /** The sentinel byte and the counted word are invisible: both readers are the plain one. */
  lemma {:induction false} ReadersRefinePlain(data: seq<byte>, r: Reader, p: Plain, requests: seq<Request>)
    requires Refines(r, p)
    ensures ReadAll(data, r, requests) == PlainReadAll(data, p, WidthOf(r), requests)
    decreases |requests|
  {
    if requests != [] {
      if requests[0].WantBit? {
        BitRefines(data, r, p);
        var read := Bit(data, r);
        if read.Some? {
          ReadersRefinePlain(data, read.value.0, PlainBit(data, p, WidthOf(r)).value.0, requests[1..]);
        }
      } else {
        var read := Byte(data, r);
        if read.Some? {
          ReadersRefinePlain(data, read.value.0, PlainByte(data, p).value.0, requests[1..]);
        }
      }
    }
  }
}
