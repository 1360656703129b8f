/**
  * Adjusting the pointers an image lists, each once: to move it to another base, where every pointer
  * gains the same distance, wrapping at its own width, or to turn pointers that are stored another
  * way into the image's own. Where fields do not overlap, moves add up and can be taken back.
  */
module Rebase {
  import opened Bytes

  /** Pointers are four bytes wide in 32-bit images and eight in 64-bit ones. */
  datatype Field = Field(at: nat, wide: bool) {
    function Width(): nat {
      if wide then 8 else 4
    }

    function End(): nat {
      at + Width()
    }

    predicate Covers(index: nat) {
      at <= index < End()
    }

    predicate Within(length: nat) {
      End() <= length
    }
  }

  /** 2^64, where the source's address arithmetic wraps. */
  const WRAP := U32 * U32

  // ----- one field

  function Number(bytes: seq<byte>): nat {
    if bytes == [] then 0 else bytes[0] + 256 * Number(bytes[1..])
  }

  /** The low bytes of a number; whatever does not fit is cut off. */
  function Digits(value: nat, count: nat): (r: seq<byte>)
    ensures |r| == count
  {
    if count == 0 then [] else [value % 256] + Digits(value / 256, count - 1)
  }

  function Added(bytes: seq<byte>, delta: nat): (r: seq<byte>)
    ensures |r| == |bytes|
  {
    Digits(Number(bytes) + delta, |bytes|)
  }

  lemma AddedStep(bytes: seq<byte>, delta: nat)
    requires bytes != []
    ensures var low := bytes[0] as int + delta;
            Added(bytes, delta) == [low % 256] + Added(bytes[1..], low / 256)
  {
    var low: nat := bytes[0] as int + delta;
    var rest := Number(bytes[1..]);
    assert Number(bytes) + delta == low + 256 * rest;
    assert (low + 256 * rest) % 256 == low % 256 && (low + 256 * rest) / 256 == low / 256 + rest;
  }

  lemma {:induction false} AddedTwice(bytes: seq<byte>, first: nat, second: nat)
    ensures Added(Added(bytes, first), second) == Added(bytes, first + second)
    decreases |bytes|
  {
    hide Added;
    if bytes == [] {
      AddedEmpty(first);
      AddedEmpty(second);
      AddedEmpty(first + second);
    } else {
      var low: nat := bytes[0] as int + first;
      var once := Added(bytes, first);
      AddedStep(bytes, first);
      AddedStep(bytes, first + second);
      AddedStep(once, second);
      assert once[1..] == Added(bytes[1..], low / 256);
      AddedTwice(bytes[1..], low / 256, (low % 256 + second) / 256);
      assert low / 256 + (low % 256 + second) / 256 == (low + second) / 256;
      assert (low % 256 + second) % 256 == (low + second) % 256;
    }
  }

  lemma AddedEmpty(delta: nat)
    ensures Added([], delta) == []
  {
  }

  function Power256(n: nat): (r: nat)
    ensures r >= 1
  {
    if n == 0 then 1 else 256 * Power256(n - 1)
  }

  /** A distance of a whole turn, or several, changes nothing. */
  lemma {:induction false} AddedWraps(bytes: seq<byte>, turns: nat)
    ensures Added(bytes, turns * Power256(|bytes|)) == bytes
    decreases |bytes|
  {
    hide Added;
    if bytes == [] {
      AddedEmpty(turns * Power256(0));
    } else {
      var rest := turns * Power256(|bytes| - 1);
      assert turns * Power256(|bytes|) == 256 * rest;
      AddedStep(bytes, 256 * rest);
      AddedWraps(bytes[1..], turns);
    }
  }

  lemma WrapIsWhole(f: Field)
    ensures WRAP % Power256(f.Width()) == 0
  {
    assert Power256(2) == 0x1_0000 && Power256(4) == U32;
    assert Power256(6) == U32 * 0x1_0000 && Power256(8) == WRAP;
  }

  lemma AddedNothing(f: Field, bytes: seq<byte>)
    requires |bytes| == f.Width()
    ensures Added(bytes, WRAP) == bytes && Added(bytes, 0) == bytes
  {
    hide Added;
    WrapIsWhole(f);
    var turns := WRAP / Power256(f.Width());
    assert WRAP == turns * Power256(f.Width());
    AddedWraps(bytes, turns);
    AddedWraps(bytes, 0);
  }

  // ----- how pointers are adjusted

  /** What becomes of a pointer's value, by its width. */
  type Adjust = (nat, bool) -> nat

  function Adjusted(bytes: seq<byte>, wide: bool, adjust: Adjust): (r: seq<byte>)
    ensures |r| == |bytes|
  {
    Digits(adjust(Number(bytes), wide), |bytes|)
  }

  function Adding(delta: nat): Adjust {
    (value, wide) => value + delta
  }

  lemma AddingAdds(bytes: seq<byte>, wide: bool, delta: nat)
    ensures Adjusted(bytes, wide, Adding(delta)) == Added(bytes, delta)
  {
  }

  function Reversed(bytes: seq<byte>): (r: seq<byte>)
    ensures |r| == |bytes|
  {
    if bytes == [] then [] else Reversed(bytes[1..]) + [bytes[0]]
  }

  function Swapped(value: nat, wide: bool): nat {
    Number(Reversed(Digits(value, if wide then 8 else 4)))
  }

  /** UPX keeps pointers with their highest byte first, and relative to the first section. */
  function Swapping(delta: nat): Adjust {
    (value, wide) => Swapped(value, wide) + delta
  }

  lemma {:induction false} NumberOfDigits(bytes: seq<byte>)
    ensures Digits(Number(bytes), |bytes|) == bytes
  {
    if bytes != [] {
      NumberOfDigits(bytes[1..]);
      var rest := Number(bytes[1..]);
      assert (bytes[0] + 256 * rest) % 256 == bytes[0] && (bytes[0] + 256 * rest) / 256 == rest;
    }
  }

  lemma {:induction false} ReversedLast(bytes: seq<byte>, last: byte)
    ensures Reversed(bytes + [last]) == [last] + Reversed(bytes)
  {
    if bytes == [] {
      assert [last][1..] == [];
    } else {
      assert (bytes + [last])[1..] == bytes[1..] + [last];
      ReversedLast(bytes[1..], last);
    }
  }

  lemma {:induction false} ReversedTwice(bytes: seq<byte>)
    ensures Reversed(Reversed(bytes)) == bytes
  {
    if bytes != [] {
      ReversedLast(Reversed(bytes[1..]), bytes[0]);
      ReversedTwice(bytes[1..]);
    }
  }

  /** A pointer stored the other way round becomes the pointer it stands for, moved by the distance. */
  lemma SwappingRestores(pointer: seq<byte>, wide: bool, delta: nat)
    requires |pointer| == if wide then 8 else 4
    ensures Adjusted(Reversed(pointer), wide, Swapping(delta)) == Added(pointer, delta)
  {
    hide *;
    SwappedIsThePointer(pointer, wide);
    SwappingSwaps(Reversed(pointer), pointer, wide, delta);
  }

  lemma SwappingSwaps(bytes: seq<byte>, pointer: seq<byte>, wide: bool, delta: nat)
    requires |bytes| == |pointer| && Swapped(Number(bytes), wide) == Number(pointer)
    ensures Adjusted(bytes, wide, Swapping(delta)) == Added(pointer, delta)
  {
    hide Number, Digits, Swapped;
  }

  lemma SwappedIsThePointer(pointer: seq<byte>, wide: bool)
    requires |pointer| == if wide then 8 else 4
    ensures Swapped(Number(Reversed(pointer)), wide) == Number(pointer)
  {
    hide Number, Digits, Reversed;
    NumberOfDigits(Reversed(pointer));
    ReversedTwice(pointer);
  }

  // ----- every field

  function Moved(bytes: seq<byte>, f: Field, adjust: Adjust): (r: seq<byte>)
    ensures |r| == |bytes|
  {
    if f.Within(|bytes|) then bytes[..f.at] + Adjusted(bytes[f.at..f.End()], f.wide, adjust) + bytes[f.End()..] else bytes
  }

  /** A field that reaches past the image is passed over. */
  function Relocated(bytes: seq<byte>, fields: seq<Field>, adjust: Adjust): (r: seq<byte>)
    ensures |r| == |bytes|
    decreases |fields|
  {
    if fields == [] then bytes else Relocated(Moved(bytes, fields[0], adjust), fields[1..], adjust)
  }

  predicate Apart(f: Field, g: Field) {
    f.End() <= g.at || g.End() <= f.at
  }

  predicate Disjoint(fields: seq<Field>) {
    forall i, j :: 0 <= i < j < |fields| ==> Apart(fields[i], fields[j])
  }

  predicate Covered(fields: seq<Field>, length: nat, index: nat) {
    exists f :: f in fields && f.Within(length) && f.Covers(index)
  }

  lemma MovedEffect(bytes: seq<byte>, f: Field, adjust: Adjust)
    ensures var r := Moved(bytes, f, adjust);
            && (forall i: nat :: i < |bytes| && !(f.Within(|bytes|) && f.Covers(i)) ==> r[i] == bytes[i])
            && (f.Within(|bytes|) ==> r[f.at..f.End()] == Adjusted(bytes[f.at..f.End()], f.wide, adjust))
  {
    hide Adjusted;
  }

  lemma {:induction false} UncoveredStay(bytes: seq<byte>, fields: seq<Field>, adjust: Adjust, index: nat)
    requires index < |bytes| && !Covered(fields, |bytes|, index)
    ensures Relocated(bytes, fields, adjust)[index] == bytes[index]
    decreases |fields|
  {
    hide Moved;
    if fields != [] {
      assert fields[0] in fields;
      MovedEffect(bytes, fields[0], adjust);
      UncoveredStay(Moved(bytes, fields[0], adjust), fields[1..], adjust, index);
    }
  }

  lemma ApartSlices(bytes: seq<byte>, f: Field, g: Field, adjust: Adjust)
    requires Apart(f, g) && g.Within(|bytes|)
    ensures Moved(bytes, f, adjust)[g.at..g.End()] == bytes[g.at..g.End()]
  {
    hide Moved;
    MovedEffect(bytes, f, adjust);
  }

  /** Each field is adjusted once. */
  lemma {:induction false} FieldMoves(bytes: seq<byte>, fields: seq<Field>, adjust: Adjust, index: nat)
    requires Disjoint(fields) && index < |fields| && fields[index].Within(|bytes|)
    ensures var f := fields[index];
            Relocated(bytes, fields, adjust)[f.at..f.End()] == Adjusted(bytes[f.at..f.End()], f.wide, adjust)
    decreases |fields|
  {
    hide Moved, Adjusted;
    var f, first := fields[index], fields[0];
    var next := Moved(bytes, first, adjust);
    if index > 0 {
      assert Apart(fields[0], fields[index]);
      ApartSlices(bytes, first, f, adjust);
      FieldMoves(next, fields[1..], adjust, index - 1);
    } else {
      MovedEffect(bytes, first, adjust);
      var r := Relocated(bytes, fields, adjust);
      forall g | g in fields[1..]
        ensures Apart(f, g)
      {
        var j :| 0 <= j < |fields[1..]| && fields[1..][j] == g;
        assert Apart(fields[0], fields[j + 1]);
      }
      forall i | f.at <= i < f.End()
        ensures r[i] == next[i]
      {
        UncoveredStay(next, fields[1..], adjust, i);
      }
      assert r[f.at..f.End()] == next[f.at..f.End()];
    }
  }

  /** Two images agree when they do outside the fields and in each of them. */
  lemma SameEverywhere(left: seq<byte>, right: seq<byte>, fields: seq<Field>)
    requires |left| == |right|
    requires forall i: nat :: i < |left| && !Covered(fields, |left|, i) ==> left[i] == right[i]
    requires forall k: nat :: k < |fields| && fields[k].Within(|left|) ==>
               left[fields[k].at..fields[k].End()] == right[fields[k].at..fields[k].End()]
    ensures left == right
  {
    forall i: nat | i < |left|
      ensures left[i] == right[i]
    {
      if Covered(fields, |left|, i) {
        var f :| f in fields && f.Within(|left|) && f.Covers(i);
        var k :| 0 <= k < |fields| && fields[k] == f;
        assert left[f.at..f.End()][i - f.at] == right[f.at..f.End()][i - f.at];
      }
    }
  }

  /** Two moves are one move by the sum of their distances. */
  lemma MovesAddUp(bytes: seq<byte>, fields: seq<Field>, first: nat, second: nat)
    requires Disjoint(fields)
    ensures Relocated(Relocated(bytes, fields, Adding(first)), fields, Adding(second)) == Relocated(bytes, fields, Adding(first + second))
  {
    hide Relocated, Added, Adjusted, Adding, Disjoint, Covered;
    var once := Relocated(bytes, fields, Adding(first));
    var twice, sum := Relocated(once, fields, Adding(second)), Relocated(bytes, fields, Adding(first + second));
    forall i: nat | i < |bytes| && !Covered(fields, |bytes|, i)
      ensures twice[i] == sum[i]
    {
      UncoveredStay(bytes, fields, Adding(first), i);
      UncoveredStay(once, fields, Adding(second), i);
      UncoveredStay(bytes, fields, Adding(first + second), i);
    }
    forall k: nat | k < |fields| && fields[k].Within(|bytes|)
      ensures twice[fields[k].at..fields[k].End()] == sum[fields[k].at..fields[k].End()]
    {
      FieldGains(bytes, fields, first, k);
      FieldGains(once, fields, second, k);
      FieldGains(bytes, fields, first + second, k);
      AddedTwice(bytes[fields[k].at..fields[k].End()], first, second);
    }
    SameEverywhere(twice, sum, fields);
  }

  /** Each field gains the distance, wrapping at its own width. */
  lemma FieldGains(bytes: seq<byte>, fields: seq<Field>, delta: nat, index: nat)
    requires Disjoint(fields) && index < |fields| && fields[index].Within(|bytes|)
    ensures var f := fields[index];
            Relocated(bytes, fields, Adding(delta))[f.at..f.End()] == Added(bytes[f.at..f.End()], delta)
  {
    hide Relocated, Disjoint, Added, Adjusted;
    var f := fields[index];
    FieldMoves(bytes, fields, Adding(delta), index);
    AddingAdds(bytes[f.at..f.End()], f.wide, delta);
  }

  lemma {:induction false} DigitsKeep(value: nat, count: nat)
    ensures Number(Digits(value, count)) == value % Power256(count)
    decreases count
  {
    if count > 0 {
      var digits := Digits(value, count);
      assert digits[1..] == Digits(value / 256, count - 1);
      DigitsKeep(value / 256, count - 1);
      RemainderSplits(value, Power256(count - 1));
    }
  }

  lemma RemainderSplits(value: nat, power: nat)
    requires power > 0
    ensures value % 256 + 256 * (value / 256 % power) == value % (256 * power)
  {
    var high := value / 256;
    var low := value % 256 + 256 * (high % power);
    assert high == power * (high / power) + high % power;
    assert value == (256 * power) * (high / power) + low;
    RemainderIs(value, 256 * power, high / power, low);
  }

  lemma NumberOfFour(bytes: seq<byte>, at: nat)
    requires at + 4 <= |bytes|
    ensures Number(bytes[at..at + 4]) == U32At(bytes, at)
  {
    var part := bytes[at..at + 4];
    assert part[1..][1..][1..][1..] == [];
    assert Number(part[1..][1..][1..]) == bytes[at + 3];
    assert Number(part[1..][1..]) == bytes[at + 2] + 256 * Number(part[1..][1..][1..]);
    assert Number(part[1..]) == bytes[at + 1] + 256 * Number(part[1..][1..]);
  }

  lemma NumberOfEight(bytes: seq<byte>, at: nat)
    requires at + 8 <= |bytes|
    ensures Number(bytes[at..at + 8]) == U32At(bytes, at) + 0x1_0000_0000 * U32At(bytes, at + 4)
  {
    hide U32At;
    var part := bytes[at..at + 8];
    assert part == part[..4] + part[4..] && part[..4] == bytes[at..at + 4] && part[4..] == bytes[at + 4..at + 4 + 4];
    NumberOfFour(bytes, at);
    NumberOfFour(bytes, at + 4);
    NumberOfBoth(part[..4], part[4..]);
  }

  lemma {:induction false} NumberOfBoth(low: seq<byte>, high: seq<byte>)
    ensures Number(low + high) == Number(low) + Power256(|low|) * Number(high)
    decreases |low|
  {
    if low == [] {
      assert low + high == high;
    } else {
      assert (low + high)[1..] == low[1..] + high;
      NumberOfBoth(low[1..], high);
      Regrouped(Power256(|low| - 1), Number(high));
    }
  }

  lemma Regrouped(a: nat, b: nat)
    ensures 256 * (a * b) == 256 * a * b
  {
  }

  /** As numbers: a four-byte field gains the distance modulo 2^32, an eight-byte one modulo 2^64. */
  lemma PointersGain(bytes: seq<byte>, fields: seq<Field>, delta: nat, index: nat)
    requires Disjoint(fields) && index < |fields|
    requires fields[index].at + (if fields[index].wide then 8 else 4) <= |bytes|
    ensures var f, after := fields[index], Relocated(bytes, fields, Adding(delta));
      && |after| == |bytes|
      && if f.wide then
           U32At(after, f.at) + 0x1_0000_0000 * U32At(after, f.at + 4)
           == (U32At(bytes, f.at) + 0x1_0000_0000 * U32At(bytes, f.at + 4) + delta) % 0x1_0000_0000_0000_0000
         else U32At(after, f.at) == (U32At(bytes, f.at) + delta) % 0x1_0000_0000
  {
    hide Relocated, Disjoint, U32At, Number, Digits;
    var f, after := fields[index], Relocated(bytes, fields, Adding(delta));
    FieldGains(bytes, fields, delta, index);
    WholePowers();
    if f.wide {
      NumberOfEight(bytes, f.at);
      NumberOfEight(after, f.at);
      DigitsKeep(Number(bytes[f.at..f.at + 8]) + delta, 8);
    } else {
      NumberOfFour(bytes, f.at);
      NumberOfFour(after, f.at);
      DigitsKeep(Number(bytes[f.at..f.at + 4]) + delta, 4);
    }
  }

  lemma WholePowers()
    ensures Power256(4) == 0x1_0000_0000 && Power256(8) == 0x1_0000_0000_0000_0000
  {
    assert Power256(2) == 0x1_0000 && Power256(4) == 0x1_0000_0000 && Power256(6) == 0x1_0000_0000_0000;
  }

  /** A move by what is missing to a whole turn takes back the move before it. */
  lemma MoveBack(bytes: seq<byte>, fields: seq<Field>, delta: nat)
    requires Disjoint(fields) && delta <= WRAP
    ensures Relocated(Relocated(bytes, fields, Adding(delta)), fields, Adding(WRAP - delta)) == bytes
  {
    hide Relocated, Added, Adjusted, Adding, Disjoint, Covered;
    MovesAddUp(bytes, fields, delta, WRAP - delta);
    var around := Relocated(bytes, fields, Adding(WRAP));
    forall i: nat | i < |bytes| && !Covered(fields, |bytes|, i)
      ensures around[i] == bytes[i]
    {
      UncoveredStay(bytes, fields, Adding(WRAP), i);
    }
    forall k: nat | k < |fields| && fields[k].Within(|bytes|)
      ensures around[fields[k].at..fields[k].End()] == bytes[fields[k].at..fields[k].End()]
    {
      FieldGains(bytes, fields, WRAP, k);
      AddedNothing(fields[k], bytes[fields[k].at..fields[k].End()]);
    }
    SameEverywhere(around, bytes, fields);
  }

  /** An image with every listed pointer stored the other way round, and relative, is restored. */
  lemma StoredPointersAreRestored(stored: seq<byte>, image: seq<byte>, fields: seq<Field>, delta: nat)
    requires Disjoint(fields) && |stored| == |image|
    requires forall i: nat :: i < |image| && !Covered(fields, |image|, i) ==> stored[i] == image[i]
    requires forall k: nat :: k < |fields| && fields[k].Within(|image|) ==>
               stored[fields[k].at..fields[k].End()] == Reversed(image[fields[k].at..fields[k].End()])
    ensures Relocated(stored, fields, Swapping(delta)) == Relocated(image, fields, Adding(delta))
  {
    hide Relocated, Added, Adjusted, Adding, Swapping, Disjoint, Covered, Reversed;
    var left, right := Relocated(stored, fields, Swapping(delta)), Relocated(image, fields, Adding(delta));
    forall i: nat | i < |image| && !Covered(fields, |image|, i)
      ensures left[i] == right[i]
    {
      UncoveredStay(stored, fields, Swapping(delta), i);
      UncoveredStay(image, fields, Adding(delta), i);
    }
    forall k: nat | k < |fields| && fields[k].Within(|image|)
      ensures left[fields[k].at..fields[k].End()] == right[fields[k].at..fields[k].End()]
    {
      var f := fields[k];
      FieldMoves(stored, fields, Swapping(delta), k);
      FieldGains(image, fields, delta, k);
      SwappingRestores(image[f.at..f.End()], f.wide, delta);
    }
    SameEverywhere(left, right, fields);
  }

  // ----- in place

  method MoveField(bytes: array<byte>, f: Field, adjust: Adjust)
    modifies bytes
    ensures bytes[..] == Moved(old(bytes[..]), f, adjust)
  {
    hide Adjusted;
    if !f.Within(bytes.Length) {
      return;
    }
    var moved := Adjusted(bytes[f.at..f.End()], f.wide, adjust);
    for i := 0 to |moved|
      invariant forall k :: 0 <= k < bytes.Length && !(f.at <= k < f.at + i) ==> bytes[k] == old(bytes[k])
      invariant forall k :: 0 <= k < i ==> bytes[f.at + k] == moved[k]
    {
      bytes[f.at + i] := moved[i];
    }
    assert bytes[f.at..f.End()] == moved;
    assert bytes[..f.at] == old(bytes[..f.at]) && bytes[f.End()..] == old(bytes[f.End()..]);
    assert bytes[..] == bytes[..f.at] + bytes[f.at..f.End()] + bytes[f.End()..];
  }

  method Relocate(bytes: array<byte>, fields: seq<Field>, adjust: Adjust)
    modifies bytes
    ensures bytes[..] == Relocated(old(bytes[..]), fields, adjust)
  {
    hide Moved;
    for i := 0 to |fields|
      invariant Relocated(bytes[..], fields[i..], adjust) == Relocated(old(bytes[..]), fields, adjust)
    {
      assert fields[i..][1..] == fields[i + 1..];
      MoveField(bytes, fields[i], adjust);
    }
  }
}
