/**
  * LZX's bit reader: a 64-bit buffer that always looks 24 bits ahead, padded with zeros behind the
  * data. It refines plain indexing of the source bits.
  */
module LzxBits {
  import opened Wrappers
  import opened Bytes

  const WINDOW_BITS := 24
  const READ_SLACK := 8

  /** Bit `at` of the data, highest bit of each byte first. */
  function BitAt(data: seq<byte>, at: nat): nat {
    HighBits(Padded(data, at / 8), 7 - at % 8) % 2
  }

  /** The number that `count` bits from `at` spell. */
  function BitsAt(data: seq<byte>, at: nat, count: nat): nat {
    if count == 0 then 0 else 2 * BitsAt(data, at, count - 1) + BitAt(data, at + count - 1)
  }

  /** Looking 24 bits ahead may take in a few bytes past the end, and no more. */
  predicate MayPeek(data: seq<byte>, at: nat) {
    (at + WINDOW_BITS + 7) / 8 <= |data| + READ_SLACK + 1
  }

  /** Eight whole bytes past the end are read as zeros, and the last bit of the window lies in the ninth at most. */
  lemma PeekIff(data: seq<byte>, at: nat)
    ensures MayPeek(data, at) <==> at + 24 <= 8 * (|data| + 9)
  {
  }

  function Window(data: seq<byte>, at: nat): Option<nat> {
    if MayPeek(data, at) then Some(BitsAt(data, at, WINDOW_BITS)) else None
  }

  function Taken(data: seq<byte>, at: nat, count: nat): Option<nat>
    requires count <= WINDOW_BITS
  {
    if count == 0 then Some(0) else if MayPeek(data, at) then Some(BitsAt(data, at, count)) else None
  }

  lemma {:induction false} DropLowBits(data: seq<byte>, at: nat, count: nat, drop: nat)
    requires drop <= count
    ensures HighBits(BitsAt(data, at, count), drop) == BitsAt(data, at, count - drop)
    decreases drop
  {
    if drop > 0 {
      assert BitsAt(data, at, count) / 2 == BitsAt(data, at, count - 1);
      DropLowBits(data, at, count - 1, drop - 1);
    }
  }

  lemma {:induction false} BitsAtSplits(data: seq<byte>, at: nat, first: nat, second: nat)
    ensures BitsAt(data, at, first + second) == Shift(BitsAt(data, at, first), second) + BitsAt(data, at + first, second)
    decreases second
  {
    if second > 0 {
      BitsAtSplits(data, at, first, second - 1);
      assert first + second - 1 == first + (second - 1);
    }
  }

  lemma {:induction false} DropFront(data: seq<byte>, at: nat, drop: nat, count: nat)
    ensures LowBits(BitsAt(data, at, drop + count), count) == BitsAt(data, at + drop, count)
    decreases count
  {
    if count > 0 {
      DropFront(data, at, drop, count - 1);
      var all := BitsAt(data, at, drop + count);
      assert drop + count - 1 == drop + (count - 1);
      assert all / 2 == BitsAt(data, at, drop + (count - 1)) && all % 2 == BitAt(data, at + drop + count - 1);
    }
  }

  // ----- the buffer

  lemma {:induction false} LowOfHigh(x: nat, drop: nat, keep: nat)
    ensures LowBits(HighBits(x, drop), keep) == HighBits(LowBits(x, drop + keep), drop)
    decreases drop
  {
    if drop > 0 {
      assert LowBits(x, drop + keep) / 2 == LowBits(x / 2, drop - 1 + keep);
      LowOfHigh(x / 2, drop - 1, keep);
    }
  }

  lemma {:induction false} LowOfLow(x: nat, more: nat, fewer: nat)
    requires fewer <= more
    ensures LowBits(LowBits(x, more), fewer) == LowBits(x, fewer)
    decreases fewer
  {
    if fewer > 0 {
      assert LowBits(x, more) / 2 == LowBits(x / 2, more - 1) && LowBits(x, more) % 2 == x % 2;
      LowOfLow(x / 2, more - 1, fewer - 1);
    }
  }

  lemma LowBitsStep(x: nat, n: nat)
    ensures LowBits(x, n + 1) == 2 * LowBits(x / 2, n) + x % 2
  {
  }

  lemma {:induction false} LowBitsAppend(x: nat, tail: nat, n: nat, m: nat)
    requires tail < Pow2(m)
    ensures LowBits(Shift(x, m) + tail, n + m) == Shift(LowBits(x, n), m) + tail
    decreases m
  {
    if m > 0 {
      var whole := Shift(x, m) + tail;
      assert whole / 2 == Shift(x, m - 1) + tail / 2 && whole % 2 == tail % 2;
      LowBitsStep(whole, n + (m - 1));
      LowBitsAppend(x, tail / 2, n, m - 1);
      assert n + m == n + (m - 1) + 1;
    }
  }

  lemma ShiftEight(x: nat)
    ensures Shift(x, 8) == 256 * x
  {
    assert Shift(x, 1) == 2 * x && Shift(x, 2) == 2 * Shift(x, 1) && Shift(x, 3) == 2 * Shift(x, 2);
    assert Shift(x, 4) == 2 * Shift(x, 3) && Shift(x, 5) == 2 * Shift(x, 4) && Shift(x, 6) == 2 * Shift(x, 5);
    assert Shift(x, 7) == 2 * Shift(x, 6) && Shift(x, 8) == 2 * Shift(x, 7);
  }

  /** Eight bits from a byte boundary are the byte. */
  lemma BitsOfByte(data: seq<byte>, index: nat)
    ensures BitsAt(data, 8 * index, 8) == Padded(data, index)
  {
    LeadingBits(data, index, 7);
  }

  lemma {:induction false} LeadingBits(data: seq<byte>, index: nat, upTo: nat)
    requires upTo <= 7
    ensures BitsAt(data, 8 * index, upTo + 1) == HighBits(Padded(data, index), 7 - upTo)
    decreases upTo
  {
    var b := Padded(data, index);
    var at := 8 * index + upTo;
    assert at / 8 == index && at % 8 == upTo;
    if upTo == 0 {
      TopBitsOfByte(b);
      assert BitsAt(data, 8 * index, 1) == 2 * BitsAt(data, 8 * index, 0) + BitAt(data, 8 * index);
    } else {
      LeadingBits(data, index, upTo - 1);
      HighBitsHalves(b, 7 - upTo);
      assert BitsAt(data, 8 * index, upTo + 1) == 2 * BitsAt(data, 8 * index, upTo) + BitAt(data, at);
    }
  }

  lemma {:induction false} HighBitsHalves(x: nat, drop: nat)
    ensures HighBits(x, drop + 1) == HighBits(x, drop) / 2
    decreases drop
  {
    if drop > 0 {
      HighBitsHalves(x / 2, drop - 1);
    }
  }

  lemma TopBitsOfByte(b: byte)
    ensures HighBits(b, 7) < 2
  {
    SmallPowers();
    HighBitsBound(b, 7, 1);
  }

  class Bits {
    const data: seq<byte>
    var next: nat
    var buffer: nat
    var count: nat

    /** The position of the next unread bit. */
    function Position(): nat
      requires count <= 8 * next
      reads this
    {
      8 * next - count
    }

    /** The buffer's low bits are the unread ones; older bits above them may linger. */
    predicate Valid()
      reads this
    {
      && count <= 8 * next && count < 32
      && next <= |data| + READ_SLACK + 1
      && LowBits(buffer, count) == BitsAt(data, Position(), count)
    }

    constructor (data: seq<byte>)
      ensures Valid() && this.data == data && Position() == 0
    {
      this.data := data;
      next, buffer, count := 0, 0, 0;
    }

    method Refill() returns (ok: bool)
      requires Valid() && count < WINDOW_BITS
      modifies this
      ensures ok == (old(next) <= |data| + READ_SLACK)
      ensures Valid() && Position() == old(Position())
      ensures ok ==> count == old(count) + 8 && next == old(next) + 1
    {
      hide LowBits, HighBits, BitsAt, BitAt;
      if next > |data| + READ_SLACK {
        return false;
      }
      var byte := Padded(data, next);
      RefillKeeps(data, next, buffer, count);
      next := next + 1;
      buffer := LowBits(buffer, 56) * 256 + byte;
      count := count + 8;
      return true;
    }

    method Peek() returns (window: Option<nat>)
      requires Valid()
      modifies this
      ensures Valid() && Position() == old(Position())
      ensures window == Window(data, Position())
      ensures window.Some? ==> count >= WINDOW_BITS
    {
      hide LowBits, HighBits, BitsAt, BitAt;
      while count < WINDOW_BITS
        invariant Valid() && Position() == old(Position())
      {
        var ok := Refill();
        if !ok {
          return None;
        }
      }
      LowOfHigh(buffer, count - WINDOW_BITS, WINDOW_BITS);
      DropLowBits(data, Position(), count, count - WINDOW_BITS);
      return Some(LowBits(HighBits(buffer, count - WINDOW_BITS), WINDOW_BITS));
    }

    method Skip(bits: nat)
      requires Valid() && bits <= count
      modifies this
      ensures Valid() && Position() == old(Position()) + bits && next == old(next) && count == old(count) - bits
    {
      hide LowBits, HighBits, BitsAt, BitAt;
      LowOfLow(buffer, count, count - bits);
      DropFront(data, Position(), bits, count - bits);
      count := count - bits;
    }

    method Take(bits: nat) returns (value: Option<nat>)
      requires Valid() && bits <= WINDOW_BITS
      modifies this
      ensures Valid()
      ensures value == Taken(data, old(Position()), bits)
      ensures value.Some? ==> Position() == old(Position()) + bits
    {
      hide LowBits, HighBits, BitsAt, BitAt;
      if bits == 0 {
        return Some(0);
      }
      var window := Peek();
      if window.None? {
        return None;
      }
      DropLowBits(data, Position(), WINDOW_BITS, WINDOW_BITS - bits);
      Skip(bits);
      return Some(HighBits(window.value, WINDOW_BITS - bits));
    }
  }

  lemma RefillKeeps(data: seq<byte>, next: nat, buffer: nat, count: nat)
    requires count <= 8 * next && count < WINDOW_BITS
    requires LowBits(buffer, count) == BitsAt(data, 8 * next - count, count)
    ensures LowBits(LowBits(buffer, 56) * 256 + Padded(data, next), count + 8) == BitsAt(data, 8 * next - count, count + 8)
  {
    hide LowBits, BitsAt, Shift, Pow2, Padded;
    var byte := Padded(data, next);
    ShiftEight(LowBits(buffer, 56));
    SmallPowers();
    LowBitsAppend(LowBits(buffer, 56), byte, count, 8);
    LowOfLow(buffer, 56, count);
    ShiftEight(BitsAt(data, 8 * next - count, count));
    ShiftEight(LowBits(LowBits(buffer, 56), count));
    BitsAtSplits(data, 8 * next - count, count, 8);
    BitsOfByte(data, next);
  }
}
