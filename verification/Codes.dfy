/**
  * The integer codes of the tag streams. Each decoder is matched with the code it reads: it returns
  * a value exactly when that value's code comes next, so every value has one code and no code is a
  * prefix of another.
  */
module Codes {
  import opened Wrappers
  import opened Bytes
  import opened Bitstream

  function Tags(bits: seq<bit>): (r: seq<Op>)
    ensures |r| == |bits|
  {
    if bits == [] then [] else [Tag(bits[0])] + Tags(bits[1..])
  }

  lemma FollowTag(data: seq<byte>, r: Reader, a: bit)
    ensures Follow(data, r, [Tag(a)])
         == var one := Bit(data, r); if one.None? || one.value.1 != a then None else Some(one.value.0)
  {
    assert [Tag(a)][1..] == [];
  }

  lemma FollowPair(data: seq<byte>, r: Reader, a: bit, b: bit)
    ensures Follow(data, r, [Tag(a), Tag(b)])
         == var one := Bit(data, r);
            if one.None? || one.value.1 != a then None
            else
              var two := Bit(data, one.value.0);
              if two.None? || two.value.1 != b then None else Some(two.value.0)
  {
    var one := Bit(data, r);
    assert [Tag(a), Tag(b)][1..] == [Tag(b)];
    if one.Some? {
      FollowTag(data, one.value.0, b);
    }
  }

  lemma FollowRaw(data: seq<byte>, r: Reader, b: byte)
    ensures Follow(data, r, [Raw(b)])
         == var one := Byte(data, r); if one.None? || one.value.1 != b then None else Some(one.value.0)
  {
    assert [Raw(b)][1..] == [];
  }

  // ----- plain numbers

  function NumberFrom(data: seq<byte>, r: Reader, count: nat, value: nat): Option<(Reader, nat)>
    decreases count
  {
    if count == 0 then Some((r, value))
    else
      var (r, bit) :- Bit(data, r);
      if 2 * value + bit >= U32 then None else NumberFrom(data, r, count - 1, 2 * value + bit)
  }

  lemma {:induction false} NumberAdvances(data: seq<byte>, r: Reader, count: nat, value: nat)
    ensures var read := NumberFrom(data, r, count, value); read.Some? ==> Left(data, read.value.0) <= Left(data, r)
    decreases count
  {
    hide Bit, Left;
    if count > 0 && Bit(data, r).Some? {
      ReadingAdvances(data, r);
      var (r, bit) := Bit(data, r).value;
      if 2 * value + bit < U32 {
        NumberAdvances(data, r, count - 1, 2 * value + bit);
      }
    }
  }

  function NumberCode(value: nat, count: nat): seq<Op> {
    Tags(BitsOf(value, count))
  }

  lemma {:induction false} NumberReads(data: seq<byte>, r: Reader, count: nat, value: nat, before: nat)
    requires value < Pow2(count) && Shift(before, count) + value < U32
    requires Follow(data, r, NumberCode(value, count)).Some?
    ensures NumberFrom(data, r, count, before)
         == Some((Follow(data, r, NumberCode(value, count)).value, Shift(before, count) + value))
    decreases count
  {
    if count > 0 {
      DescendsOneBit(before, value, count);
      var high, rest := TopBit(value, count - 1), BelowTop(value, count - 1);
      BitsOfTop(value, count);
      assert NumberCode(value, count)[0] == Tag(high) && NumberCode(value, count)[1..] == NumberCode(rest, count - 1);
      ShiftGrows(2 * before + high, 2 * before + high, count - 1);
      NumberReads(data, Bit(data, r).value.0, count - 1, rest, 2 * before + high);
    }
  }

  lemma {:induction false} BitsOfTop(value: nat, count: nat)
    requires count > 0 && value < Pow2(count)
    ensures BitsOf(value, count)[0] == TopBit(value, count - 1)
    ensures BitsOf(value, count)[1..] == BitsOf(BelowTop(value, count - 1), count - 1)
    decreases count
  {
    if count > 1 {
      BitsOfTop(value / 2, count - 1);
      assert BitsOf(value, count)[1..] == BitsOf(value / 2, count - 1)[1..] + [value % 2];
    }
  }

  // ----- gamma codes; `stop` is the flag that ends one

  function GammaFrom(data: seq<byte>, r: Reader, value: nat, stop: bit): (g: Option<(Reader, nat)>)
    requires 1 <= value < U32
    ensures g.Some? ==> value < g.value.1 < U32
    decreases U32 - value
  {
    var (r, bit) :- Bit(data, r);
    var value := 2 * value + bit;
    if value >= U32 then None
    else
      var (r, flag) :- Bit(data, r);
      if flag == stop then Some((r, value)) else GammaFrom(data, r, value, stop)
  }

  function Gamma(data: seq<byte>, r: Reader, stop: bit): Option<(Reader, nat)> {
    GammaFrom(data, r, 1, stop)
  }

  lemma {:induction false} GammaAdvances(data: seq<byte>, r: Reader, value: nat, stop: bit)
    requires 1 <= value < U32
    ensures var read := GammaFrom(data, r, value, stop); read.Some? ==> Left(data, read.value.0) < Left(data, r)
    decreases U32 - value
  {
    hide Bit, Left;
    if Bit(data, r).Some? {
      ReadingAdvances(data, r);
      var (one, bit) := Bit(data, r).value;
      if 2 * value + bit < U32 && Bit(data, one).Some? {
        ReadingAdvances(data, one);
        var (two, flag) := Bit(data, one).value;
        if flag != stop {
          GammaAdvances(data, two, 2 * value + bit, stop);
        }
      }
    }
  }

  /** The bits read before a value that is not the last. */
  function GammaLead(value: nat, stop: bit): seq<Op>
    requires value >= 1
  {
    if value == 1 then [] else GammaLead(value / 2, stop) + [Tag(value % 2), Tag(1 - stop)]
  }

  function GammaCode(value: nat, stop: bit): seq<Op>
    requires value >= 2
  {
    GammaLead(value / 2, stop) + [Tag(value % 2), Tag(stop)]
  }

  lemma {:induction false} GammaAfterLead(data: seq<byte>, r: Reader, value: nat, stop: bit)
    requires 1 <= value < U32 && Follow(data, r, GammaLead(value, stop)).Some?
    ensures GammaFrom(data, r, 1, stop) == GammaFrom(data, Follow(data, r, GammaLead(value, stop)).value, value, stop)
    decreases value
  {
    hide Bit;
    if value > 1 {
      FollowBoth(data, r, GammaLead(value / 2, stop), [Tag(value % 2), Tag(1 - stop)]);
      GammaAfterLead(data, r, value / 2, stop);
      FollowPair(data, Follow(data, r, GammaLead(value / 2, stop)).value, value % 2, 1 - stop);
    }
  }

  lemma {:induction false} GammaOnlyReads(data: seq<byte>, start: Reader, r: Reader, value: nat, stop: bit)
    requires 1 <= value < U32 && Follow(data, start, GammaLead(value, stop)) == Some(r)
    requires GammaFrom(data, r, value, stop).Some?
    ensures var (end, result) := GammaFrom(data, r, value, stop).value;
            2 <= result < U32 && Follow(data, start, GammaCode(result, stop)) == Some(end)
    decreases U32 - value
  {
    hide Bit, Follow;
    var one := Bit(data, r).value;
    var two := Bit(data, one.0).value;
    var next := 2 * value + one.1;
    FollowPair(data, r, one.1, two.1);
    FollowBoth(data, start, GammaLead(value, stop), [Tag(one.1), Tag(two.1)]);
    assert next / 2 == value && next % 2 == one.1;
    if two.1 != stop {
      assert two.1 == 1 - stop;
      GammaOnlyReads(data, start, two.0, next, stop);
    }
  }

  /** A gamma decoder returns a value exactly when the value's one code comes next. */
  lemma GammaIff(data: seq<byte>, r: Reader, end: Reader, value: nat, stop: bit)
    ensures Gamma(data, r, stop) == Some((end, value))
       <==> 2 <= value < U32 && Follow(data, r, GammaCode(value, stop)) == Some(end)
  {
    hide Bit;
    if Gamma(data, r, stop) == Some((end, value)) {
      GammaOnlyReads(data, r, r, 1, stop);
    }
    if 2 <= value < U32 && Follow(data, r, GammaCode(value, stop)) == Some(end) {
      FollowBoth(data, r, GammaLead(value / 2, stop), [Tag(value % 2), Tag(stop)]);
      GammaAfterLead(data, r, value / 2, stop);
      FollowPair(data, Follow(data, r, GammaLead(value / 2, stop)).value, value % 2, stop);
    }
  }

  // ----- paired gamma codes: two value bits to every flag

  function PairedFrom(data: seq<byte>, r: Reader, value: nat): (g: Option<(Reader, nat)>)
    requires 1 <= value < U32
    ensures g.Some? ==> value < g.value.1 < U32
    decreases U32 - value
  {
    var (r, bit) :- Bit(data, r);
    var value := 2 * value + bit;
    if value >= U32 then None
    else
      var (r, flag) :- Bit(data, r);
      if flag == 1 then Some((r, value))
      else
        var (r, bit) :- Bit(data, r);
        var value := 2 * (value - 1) + bit;
        if value >= U32 then None else PairedFrom(data, r, value)
  }

  function Paired(data: seq<byte>, r: Reader): Option<(Reader, nat)> {
    PairedFrom(data, r, 1)
  }

  lemma {:induction false} PairedAdvances(data: seq<byte>, r: Reader, value: nat)
    requires 1 <= value < U32
    ensures var read := PairedFrom(data, r, value); read.Some? ==> Left(data, read.value.0) < Left(data, r)
    decreases U32 - value
  {
    hide Bit, Left;
    if Bit(data, r).Some? {
      ReadingAdvances(data, r);
      var (one, bit) := Bit(data, r).value;
      var value := 2 * value + bit;
      if value < U32 && Bit(data, one).Some? {
        ReadingAdvances(data, one);
        var (two, flag) := Bit(data, one).value;
        if flag != 1 && Bit(data, two).Some? {
          ReadingAdvances(data, two);
          var (three, low) := Bit(data, two).value;
          if 2 * (value - 1) + low < U32 {
            PairedAdvances(data, three, 2 * (value - 1) + low);
          }
        }
      }
    }
  }

  function PairedLead(value: nat): seq<Op>
    requires value >= 1
  {
    if value == 1 then []
    else PairedLead((value + 2) / 4) + [Tag((value + 2) / 2 % 2), Tag(0)] + [Tag(value % 2)]
  }

  function PairedCode(value: nat): seq<Op>
    requires value >= 2
  {
    PairedLead(value / 2) + [Tag(value % 2), Tag(1)]
  }

  lemma FollowThree(data: seq<byte>, r: Reader, lead: seq<Op>, a: bit, b: bit, c: bit)
    ensures var all := Follow(data, r, lead + [Tag(a), Tag(b)] + [Tag(c)]);
            var led := Follow(data, r, lead);
            all == if led.None? then None
                   else
                     var pair := Follow(data, led.value, [Tag(a), Tag(b)]);
                     if pair.None? then None else Follow(data, pair.value, [Tag(c)])
  {
    FollowBoth(data, r, lead + [Tag(a), Tag(b)], [Tag(c)]);
    FollowBoth(data, r, lead, [Tag(a), Tag(b)]);
  }

  lemma PairArithmetic(value: nat)
    requires value >= 2
    ensures var before, a, c := (value + 2) / 4, (value + 2) / 2 % 2, value % 2;
            1 <= before < value && before <= 2 * before + a <= value && 2 * (2 * before + a - 1) + c == value
  {
  }

  lemma PairArithmeticBack(before: nat, a: bit, c: bit)
    requires before >= 1
    ensures var next := 2 * (2 * before + a - 1) + c;
            next >= 2 && (next + 2) / 4 == before && (next + 2) / 2 % 2 == a && next % 2 == c
  {
  }

  lemma {:induction false} PairedAfterLead(data: seq<byte>, r: Reader, value: nat)
    requires 1 <= value < U32 && Follow(data, r, PairedLead(value)).Some?
    ensures PairedFrom(data, r, 1) == PairedFrom(data, Follow(data, r, PairedLead(value)).value, value)
    decreases value
  {
    hide Bit;
    if value > 1 {
      var before, a, c := (value + 2) / 4, (value + 2) / 2 % 2, value % 2;
      PairArithmetic(value);
      FollowThree(data, r, PairedLead(before), a, 0, c);
      PairedAfterLead(data, r, before);
      var led := Follow(data, r, PairedLead(before)).value;
      FollowPair(data, led, a, 0);
      FollowTag(data, Follow(data, led, [Tag(a), Tag(0)]).value, c);
    }
  }

  lemma {:induction false} PairedOnlyReads(data: seq<byte>, start: Reader, r: Reader, value: nat)
    requires 1 <= value < U32 && Follow(data, start, PairedLead(value)) == Some(r)
    requires PairedFrom(data, r, value).Some?
    ensures var (end, result) := PairedFrom(data, r, value).value;
            2 <= result < U32 && Follow(data, start, PairedCode(result)) == Some(end)
    decreases U32 - value
  {
    hide Bit, Follow;
    var one := Bit(data, r).value;
    var two := Bit(data, one.0).value;
    var first := 2 * value + one.1;
    FollowPair(data, r, one.1, two.1);
    if two.1 == 1 {
      FollowBoth(data, start, PairedLead(value), [Tag(one.1), Tag(1)]);
      assert first / 2 == value && first % 2 == one.1;
    } else {
      var three := Bit(data, two.0).value;
      var next := 2 * (first - 1) + three.1;
      FollowTag(data, two.0, three.1);
      FollowThree(data, start, PairedLead(value), one.1, 0, three.1);
      PairArithmeticBack(value, one.1, three.1);
      PairedOnlyReads(data, start, three.0, next);
    }
  }

  /** The same for the paired code. */
  lemma PairedIff(data: seq<byte>, r: Reader, end: Reader, value: nat)
    ensures Paired(data, r) == Some((end, value))
       <==> 2 <= value < U32 && Follow(data, r, PairedCode(value)) == Some(end)
  {
    hide Bit;
    if Paired(data, r) == Some((end, value)) {
      PairedOnlyReads(data, r, r, 1);
    }
    if 2 <= value < U32 && Follow(data, r, PairedCode(value)) == Some(end) {
      FollowBoth(data, r, PairedLead(value / 2), [Tag(value % 2), Tag(1)]);
      PairedAfterLead(data, r, value / 2);
      FollowPair(data, Follow(data, r, PairedLead(value / 2)).value, value % 2, 1);
    }
  }
}
