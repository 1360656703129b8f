/** Bytes, powers of two and the numbers that byte strings spell. */
module Bytes {
  import opened Wrappers

  type byte = b: int | 0 <= b < 256

  const U32 := 0x1_0000_0000

  function Pow2(n: nat): (r: nat)
    ensures r >= 1
  {
    if n == 0 then 1 else 2 * Pow2(n - 1)
  }

  /** `x` with `n` zero bits behind it. */
  function Shift(x: nat, n: nat): nat {
    if n == 0 then x else 2 * Shift(x, n - 1)
  }

  function LowBits(x: nat, n: nat): nat
    decreases n
  {
    if n == 0 then 0 else 2 * LowBits(x / 2, n - 1) + x % 2
  }

  function HighBits(x: nat, drop: nat): nat
    decreases drop
  {
    if drop == 0 then x else HighBits(x / 2, drop - 1)
  }

  /** The top bit of a number below 2^(n+1), and what is left without it. */
  function TopBit(x: nat, n: nat): nat {
    if x < Pow2(n) then 0 else 1
  }

  function BelowTop(x: nat, n: nat): nat {
    if x < Pow2(n) then x else x - Pow2(n)
  }

  /** Reads past the end of the data yield zero. */
  function Padded(data: seq<byte>, at: nat): byte {
    if at < |data| then data[at] else 0
  }

  lemma RemainderIs(x: nat, m: nat, q: nat, r: nat)
    requires m > 0 && r < m && x == m * q + r
    ensures x % m == r && x / m == q
  {
    assert m * (x / m) + x % m == m * q + r;
    if x / m < q {
      OneFactorMore(m, x / m, q);
      assert false;
    } else if x / m > q {
      OneFactorMore(m, q, x / m);
      assert false;
    }
  }

  lemma {:induction false} OneFactorMore(m: nat, a: nat, b: nat)
    requires a < b
    ensures m * a + m <= m * b
    decreases b
  {
    assert m * b == m * (b - 1) + m;
    if a < b - 1 {
      OneFactorMore(m, a, b - 1);
    }
  }

  // ----- little-endian fields

  function U32At(data: seq<byte>, at: nat): (r: nat)
    requires at + 4 <= |data|
    ensures r < U32
  {
    (((data[at + 3] as int) * 256 + data[at + 2]) * 256 + data[at + 1]) * 256 + data[at]
  }

  function U16At(data: seq<byte>, at: nat): (r: nat)
    requires at + 2 <= |data|
    ensures r < 0x1_0000
  {
    (data[at + 1] as int) * 256 + data[at]
  }

  lemma LowestByteFirst(data: seq<byte>, at: nat)
    ensures at + 4 <= |data| ==>
      U32At(data, at) == data[at] as int + 0x100 * data[at + 1] as int + 0x1_0000 * data[at + 2] as int + 0x100_0000 * data[at + 3] as int
    ensures at + 2 <= |data| ==> U16At(data, at) == data[at] as int + 0x100 * data[at + 1] as int
  {
  }

  /** Reading a field that is not wholly there fails. */
  function ReadU32(data: seq<byte>, at: nat): Option<nat> {
    if at + 4 <= |data| then Some(U32At(data, at)) else None
  }

  function ReadU16(data: seq<byte>, at: nat): Option<nat> {
    if at + 2 <= |data| then Some(U16At(data, at)) else None
  }

  function U32Bytes(value: nat): (r: seq<byte>)
    ensures |r| == 4
  {
    [value % 256, value / 256 % 256, value / 256 / 256 % 256, value / 256 / 256 / 256 % 256]
  }

  function U16Bytes(value: nat): (r: seq<byte>)
    ensures |r| == 2
  {
    [value % 256, value / 256 % 256]
  }

  /** `part` stands at `at`. */
  predicate StartsAt(data: seq<byte>, at: nat, part: seq<byte>) {
    at + |part| <= |data| && data[at..at + |part|] == part
  }

  lemma StartsWith(data: seq<byte>, at: nat, first: seq<byte>, second: seq<byte>)
    requires StartsAt(data, at, first + second)
    ensures StartsAt(data, at, first) && StartsAt(data, at + |first|, second)
  {
    var bytes := data[at..at + |first + second|];
    assert data[at..at + |first|] == bytes[..|first|];
    assert data[at + |first|..at + |first| + |second|] == bytes[|first|..];
  }

  lemma U32RoundTrip(data: seq<byte>, at: nat, value: nat)
    requires value < U32 && StartsAt(data, at, U32Bytes(value))
    ensures U32At(data, at) == value
  {
    var part := data[at..at + 4];
    assert data[at] == part[0] && data[at + 1] == part[1] && data[at + 2] == part[2] && data[at + 3] == part[3];
    var v1 := value / 256;
    var v2 := v1 / 256;
    assert v2 / 256 < 256;
  }

  lemma U16RoundTrip(data: seq<byte>, at: nat, value: nat)
    requires value < 0x1_0000 && StartsAt(data, at, U16Bytes(value))
    ensures U16At(data, at) == value
  {
    var part := data[at..at + 2];
    assert data[at] == part[0] && data[at + 1] == part[1];
  }

  lemma U32Reads(image: seq<byte>, at: nat, value: nat)
    requires value < U32 && StartsAt(image, at, U32Bytes(value))
    ensures ReadU32(image, at) == Some(value)
  {
    U32RoundTrip(image, at, value);
  }

  lemma U16Reads(image: seq<byte>, at: nat, value: nat)
    requires value < 0x1_0000 && StartsAt(image, at, U16Bytes(value))
    ensures ReadU16(image, at) == Some(value)
  {
    U16RoundTrip(image, at, value);
  }

  lemma U32BytesOnly(bytes: seq<byte>)
    requires |bytes| == 4
    ensures U32Bytes(U32At(bytes, 0)) == bytes
  {
    var top: nat := bytes[3];
    LowByte(top, bytes[2]);
    LowByte(top * 256 + bytes[2], bytes[1]);
    LowByte((top * 256 + bytes[2]) * 256 + bytes[1], bytes[0]);
  }

  lemma LowByte(high: nat, low: byte)
    ensures (high * 256 + low) / 256 == high && (high * 256 + low) % 256 == low
  {
  }

  // ----- arithmetic

  lemma {:induction false} ShiftAdds(x: nat, y: nat, n: nat)
    ensures Shift(x + y, n) == Shift(x, n) + Shift(y, n)
  {
    if n > 0 {
      ShiftAdds(x, y, n - 1);
    }
  }

  lemma {:induction false} ShiftFirst(x: nat, n: nat)
    requires n > 0
    ensures Shift(x, n) == Shift(2 * x, n - 1)
  {
    if n > 1 {
      ShiftFirst(x, n - 1);
    }
  }

  lemma {:induction false} ShiftGrows(x: nat, y: nat, n: nat)
    requires x <= y
    ensures Shift(x, n) <= Shift(y, n) && x <= Shift(x, n)
  {
    if n > 0 {
      ShiftGrows(x, y, n - 1);
    }
  }

  lemma {:induction false} ShiftOfBit(n: nat)
    ensures Shift(1, n) == Pow2(n) && Shift(0, n) == 0
  {
    if n > 0 {
      ShiftOfBit(n - 1);
    }
  }

  /** One more bit below a prefix: what a binary tree does at every node. */
  lemma DescendsOneBit(node: nat, value: nat, bits: nat)
    requires bits > 0 && value < Pow2(bits)
    ensures var bit, rest := TopBit(value, bits - 1), BelowTop(value, bits - 1);
            && bit < 2 && rest < Pow2(bits - 1)
            && Shift(2 * node + bit, bits - 1) + rest == Shift(node, bits) + value
  {
    ShiftFirst(node, bits);
    ShiftAdds(2 * node, TopBit(value, bits - 1), bits - 1);
    ShiftOfBit(bits - 1);
  }

  lemma {:induction false} Pow2Grows(a: nat, b: nat)
    requires a <= b
    ensures Pow2(a) <= Pow2(b)
  {
    if a < b {
      Pow2Grows(a, b - 1);
    }
  }

  lemma SmallPowers()
    ensures Pow2(0) == 1 && Pow2(1) == 2 && Pow2(2) == 4 && Pow2(3) == 8 && Pow2(4) == 16
    ensures Pow2(5) == 32 && Pow2(6) == 64 && Pow2(7) == 128 && Pow2(8) == 256
  {
    assert Pow2(2) == 4;
    assert Pow2(4) == 16;
    assert Pow2(6) == 64;
  }

  lemma TwiceThePower(n: nat)
    ensures Pow2(n + 1) == 2 * Pow2(n)
  {
  }

  lemma SixteenTimesThePower(n: nat)
    ensures Pow2(n + 4) == 16 * Pow2(n)
  {
    TwiceThePower(n);
    TwiceThePower(n + 1);
    TwiceThePower(n + 2);
    TwiceThePower(n + 3);
  }

  lemma {:induction false} LowBitsBound(x: nat, n: nat)
    ensures LowBits(x, n) < Pow2(n)
    decreases n
  {
    if n > 0 {
      LowBitsBound(x / 2, n - 1);
    }
  }

  lemma {:induction false} HighBitsBound(x: nat, drop: nat, keep: nat)
    requires x < Pow2(drop + keep)
    ensures HighBits(x, drop) < Pow2(keep)
    decreases drop
  {
    if drop > 0 {
      assert Pow2(drop + keep) == 2 * Pow2(drop - 1 + keep);
      HighBitsBound(x / 2, drop - 1, keep);
    }
  }

  lemma {:induction false} ShiftBound(x: nat, y: nat, m: nat, n: nat)
    requires x < Pow2(m) && y < Pow2(n)
    ensures Shift(x, n) + y < Pow2(m + n)
    decreases n
  {
    ShiftGrows(x + 1, Pow2(m), n);
    ShiftAdds(x, 1, n);
    ShiftOfBit(n);
    ShiftOfPower(m, n);
  }

  lemma {:induction false} ShiftOfPower(m: nat, n: nat)
    ensures Shift(Pow2(m), n) == Pow2(m + n)
  {
    if n > 0 {
      ShiftOfPower(m, n - 1);
      assert Pow2(m + n) == 2 * Pow2(m + (n - 1));
    }
  }

  lemma TwoToThe32()
    ensures Pow2(32) == U32
  {
    SmallPowers();
    ShiftOfPower(8, 8);
    ShiftOfPower(16, 16);
    assert Shift(Pow2(8), 8) == 0x1_0000;
    assert Shift(0x1_0000, 8) == 0x100_0000;
    assert Shift(0x1_0000, 16) == U32;
  }

  lemma DivBound(x: nat, a: nat, b: nat)
    requires a > 0 && x < a * b
    ensures x / a < b
  {
    var q := x / a;
    assert a * q <= x;
    assert q >= b ==> a * q >= a * b;
  }
}
