/**
  * Fibonacci codes: the digits of a number's Zeckendorf representation, lowest first, and a second
  * one right behind the last digit.
  */
module Fibonacci {
  import opened Wrappers
  import opened Bytes
  import opened Bitstream
  import opened Codes

  /** 1, 2, 3, 5, 8, ... */
  function Fib(n: nat): nat {
    if n == 0 then 1 else if n == 1 then 2 else Fib(n - 1) + Fib(n - 2)
  }

  // ----- the decoder

  /** `previous` and `current` are the two Fibonacci numbers before the one the next digit weighs. */
  function FibonacciFrom(data: seq<byte>, r: Reader, previous: nat, current: nat, value: nat): Option<(Reader, nat)>
    requires current >= 1
    decreases 2 * U32 - previous - current
  {
    var next := previous + current;
    if next >= U32 then None
    else
      var (r, digit) :- Bit(data, r);
      if digit == 0 then FibonacciFrom(data, r, current, next, value)
      else if value + next >= U32 || current + next >= U32 then None
      else
        var (r, end) :- Bit(data, r);
        if end == 1 then Some((r, value + next)) else FibonacciFrom(data, r, next, current + next, value + next)
  }

  function Read(data: seq<byte>, r: Reader): Option<(Reader, nat)> {
    FibonacciFrom(data, r, 0, 1, 1)
  }

  lemma {:induction false} FibonacciAdvances(data: seq<byte>, r: Reader, previous: nat, current: nat, value: nat)
    requires current >= 1
    ensures var read := FibonacciFrom(data, r, previous, current, value); read.Some? ==> Left(data, read.value.0) < Left(data, r)
    decreases 2 * U32 - previous - current
  {
    hide Bit, Left;
    var next := previous + current;
    if next < U32 && Bit(data, r).Some? {
      ReadingAdvances(data, r);
      var (one, digit) := Bit(data, r).value;
      if digit == 0 {
        FibonacciAdvances(data, one, current, next, value);
      } else if value + next < U32 && current + next < U32 && Bit(data, one).Some? {
        ReadingAdvances(data, one);
        var (two, end) := Bit(data, one).value;
        if end == 0 {
          FibonacciAdvances(data, two, next, current + next, value + next);
        }
      }
    }
  }

  /** The decoder's pair of numbers before the digit of weight Fib(index). */
  function Current(index: nat): (r: nat)
    ensures r >= 1
  {
    FibAtLeastOne(index);
    if index == 0 then 1 else
      FibAtLeastOne(index - 1);
      Fib(index - 1)
  }

  lemma {:induction false} FibAtLeastOne(n: nat)
    ensures Fib(n) >= 1
  {
    if n >= 2 {
      FibAtLeastOne(n - 1);
    }
  }

  function Previous(index: nat): nat {
    FibGrows(index);
    Fib(index) - Current(index)
  }

  lemma FibGrows(index: nat)
    ensures Current(index) <= Fib(index) && Current(index) + Fib(index) == Fib(index + 1)
  {
  }

  // ----- Zeckendorf representations

  function Sum(digits: seq<bit>, index: nat): nat {
    if digits == [] then 0 else (if digits[0] == 1 then Fib(index) else 0) + Sum(digits[1..], index + 1)
  }

  /** No two neighbouring ones. */
  predicate Sparse(digits: seq<bit>) {
    forall k :: 0 <= k < |digits| - 1 ==> digits[k] == 0 || digits[k + 1] == 0
  }

  /** Sparse, with a one at the top. */
  predicate Zeckendorf(digits: seq<bit>) {
    digits != [] && digits[|digits| - 1] == 1 && Sparse(digits)
  }

  /** The greedy digits of a number below Fib(length). */
  function Digits(n: nat, length: nat): (r: seq<bit>)
    ensures |r| == length
  {
    if length == 0 then []
    else if n >= Fib(length - 1) then Digits(n - Fib(length - 1), length - 1) + [1]
    else Digits(n, length - 1) + [0]
  }

  /** How many digits a number needs. */
  function LengthFrom(n: nat, length: nat): nat
    requires n >= 1
    decreases n - length
  {
    FibAbove(length);
    if Fib(length) > n then length else LengthFrom(n, length + 1)
  }

  lemma {:induction false} FibAbove(n: nat)
    ensures Fib(n) > n
  {
    if n >= 2 {
      FibAbove(n - 1);
      FibAbove(n - 2);
    }
  }

  function Length(n: nat): nat
    requires n >= 1
  {
    LengthFrom(n, 1)
  }

  lemma {:induction false} LengthFits(n: nat, length: nat)
    requires n >= 1 && 1 <= length && Fib(length - 1) <= n
    ensures var l := LengthFrom(n, length); l >= length && Fib(l - 1) <= n < Fib(l)
    decreases n - length
  {
    FibAbove(length);
    FibAbove(length - 1);
    if Fib(length) <= n {
      LengthFits(n, length + 1);
    }
  }

  lemma {:induction false} SumAppends(digits: seq<bit>, last: bit, index: nat)
    ensures Sum(digits + [last], index) == Sum(digits, index) + if last == 1 then Fib(index + |digits|) else 0
  {
    if digits == [] {
      assert [] + [last] == [last];
      assert Sum([last], index) == (if last == 1 then Fib(index) else 0) + Sum([last][1..], index + 1);
    } else {
      assert (digits + [last])[1..] == digits[1..] + [last];
      SumAppends(digits[1..], last, index + 1);
    }
  }

  lemma {:induction false} DigitsSpell(n: nat, length: nat)
    requires n < Fib(length)
    ensures var d := Digits(n, length); Sum(d, 0) == n && Sparse(d)
    ensures length >= 1 && n < Fib(length - 1) ==> Digits(n, length)[length - 1] == 0
  {
    if length > 0 {
      if n >= Fib(length - 1) {
        var rest := n - Fib(length - 1);
        if length >= 2 {
          assert Fib(length) == Fib(length - 1) + Fib(length - 2);
        }
        SmallerStep(length - 1, rest);
        DigitsSpell(rest, length - 1);
        SumAppends(Digits(rest, length - 1), 1, 0);
      } else {
        DigitsSpell(n, length - 1);
        SumAppends(Digits(n, length - 1), 0, 0);
      }
    }
  }

  lemma SmallerStep(length: nat, rest: nat)
    requires rest + Fib(length) < Fib(length + 1)
    ensures rest < Fib(length) && (length >= 1 ==> rest < Fib(length - 1))
  {
    FibGrows(length);
  }

  /** A sparse sum stays below the next Fibonacci number. */
  lemma {:induction false} SparseBound(digits: seq<bit>)
    requires Sparse(digits)
    ensures Sum(digits, 0) < Fib(|digits|)
    ensures digits != [] && digits[|digits| - 1] == 0 ==> Sum(digits, 0) < Fib(|digits| - 1)
    decreases |digits|
  {
    if digits != [] {
      var init, last := digits[..|digits| - 1], digits[|digits| - 1];
      assert digits == init + [last];
      SumAppends(init, last, 0);
      SparseBound(init);
      FibGrows(|init|);
      if last == 1 && init != [] {
        assert init[|init| - 1] == digits[|init| - 1];
      }
    }
  }

  /** Sparse digits of the same sum and length are the greedy ones. */
  lemma {:induction false} SparseIsGreedy(digits: seq<bit>)
    requires Sparse(digits)
    ensures digits == Digits(Sum(digits, 0), |digits|)
    decreases |digits|
  {
    if digits != [] {
      var init, last := digits[..|digits| - 1], digits[|digits| - 1];
      assert digits == init + [last];
      SumAppends(init, last, 0);
      SparseIsGreedy(init);
      SparseBound(init);
    }
  }

  lemma {:induction false} LengthOnly(n: nat, length: nat, from: nat)
    requires 1 <= from <= length && Fib(length - 1) <= n < Fib(length)
    ensures LengthFrom(n, from) == length
    decreases length - from
  {
    FibAbove(length - 1);
    if from < length {
      FibRises(from, length - 1);
      LengthOnly(n, length, from + 1);
    }
  }

  lemma {:induction false} FibRises(a: nat, b: nat)
    requires a <= b
    ensures Fib(a) <= Fib(b)
  {
    if a < b {
      FibRises(a, b - 1);
      FibGrows(b - 1);
    }
  }

  function ZeckendorfOf(n: nat): seq<bit>
    requires n >= 1
  {
    Digits(n, Length(n))
  }

  /** Every positive number has exactly one Zeckendorf representation. */
  lemma ZeckendorfUnique(n: nat, digits: seq<bit>)
    requires n >= 1
    ensures Zeckendorf(digits) && Sum(digits, 0) == n <==> digits == ZeckendorfOf(n)
  {
    LengthFits(n, 1);
    DigitsSpell(n, Length(n));
    if Zeckendorf(digits) && Sum(digits, 0) == n {
      SparseIsGreedy(digits);
      SparseBound(digits);
      var init := digits[..|digits| - 1];
      assert digits == init + [1];
      SumAppends(init, 1, 0);
      LengthOnly(n, |digits|, 1);
    }
  }

  // ----- codes

  function Code(value: nat): seq<Op>
    requires value >= 2
  {
    Tags(ZeckendorfOf(value - 1) + [1])
  }

  lemma TagsHead(bits: seq<bit>, data: seq<byte>, r: Reader)
    requires bits != []
    ensures Follow(data, r, Tags(bits))
         == var one := Bit(data, r);
            if one.None? || one.value.1 != bits[0] then None else Follow(data, one.value.0, Tags(bits[1..]))
  {
    assert Tags(bits)[1..] == Tags(bits[1..]);
  }

  lemma ZeckendorfTail(digits: seq<bit>)
    requires Zeckendorf(digits) && |digits| > 1
    ensures Zeckendorf(digits[1..])
    ensures digits[0] == 1 ==> digits[1] == 0 && |digits| > 2 && Zeckendorf(digits[2..])
  {
    if digits[0] == 1 {
      assert digits[0] == 0 || digits[0 + 1] == 0;
    }
  }

  lemma SumOfTwo(digits: seq<bit>, index: nat)
    requires |digits| >= 2 && digits[0] == 1 && digits[1] == 0
    ensures Sum(digits, index) == Fib(index) + Sum(digits[2..], index + 2)
  {
    assert digits[1..][1..] == digits[2..];
  }

  lemma {:induction false} DigitsRead(data: seq<byte>, r: Reader, digits: seq<bit>, index: nat, value: nat)
    requires Zeckendorf(digits) && Fib(index + |digits|) < U32 && value + Sum(digits, index) < U32
    requires Follow(data, r, Tags(digits + [1])).Some?
    ensures FibonacciFrom(data, r, Previous(index), Current(index), value)
         == Some((Follow(data, r, Tags(digits + [1])).value, value + Sum(digits, index)))
    decreases |digits|
  {
    hide Bit, Follow, Zeckendorf, Fib;
    FibGrows(index);
    FibGrows(index + 1);
    Nonempty(digits);
    FibRises(index + 1, index + |digits|);
    FibRises(index, index + |digits|);
    var all := digits + [1];
    TagsHead(all, data, r);
    var one := Bit(data, r).value;
    assert all[1..] == digits[1..] + [1];
    if |digits| == 1 {
      assert all == [1, 1];
      TagsHead([1], data, one.0);
      assert [1 as bit][1..] == [];
      FollowNone(data, Bit(data, one.0).value.0);
      assert digits[1..] == [];
    } else {
      ZeckendorfTail(digits);
      if digits[0] == 0 {
        DigitsRead(data, one.0, digits[1..], index + 1, value);
      } else {
        TagsHead(all[1..], data, one.0);
        assert all[1..][1..] == digits[2..] + [1];
        FibRises(index + 2, index + |digits|);
        SumOfTwo(digits, index);
        DigitsRead(data, Bit(data, one.0).value.0, digits[2..], index + 2, value + Fib(index));
      }
    }
  }

  lemma Nonempty(digits: seq<bit>)
    requires Zeckendorf(digits)
    ensures digits != [] && digits[|digits| - 1] == 1
  {
  }

  lemma FollowNone(data: seq<byte>, r: Reader)
    ensures Follow(data, r, Tags([])) == Some(r)
  {
  }

  /** Whatever the decoder accepts was a run of spaced digits and a closing one. */
  lemma {:induction false} OnlyDigitsRead(data: seq<byte>, r: Reader, index: nat, value: nat) returns (digits: seq<bit>)
    requires FibonacciFrom(data, r, Previous(index), Current(index), value).Some?
    ensures Zeckendorf(digits) && Fib(index + |digits|) < U32
    ensures var (end, result) := FibonacciFrom(data, r, Previous(index), Current(index), value).value;
            Follow(data, r, Tags(digits + [1])) == Some(end) && result == value + Sum(digits, index)
    decreases 2 * U32 - Previous(index) - Current(index)
  {
    hide Bit, Follow, Fib;
    FibGrows(index);
    FibGrows(index + 1);
    var one := Bit(data, r).value;
    var rest: seq<bit>;
    if one.1 == 0 {
      rest := OnlyDigitsRead(data, one.0, index + 1, value);
      digits := [0] + rest;
      assert digits[1..] == rest;
    } else {
      var two := Bit(data, one.0).value;
      if two.1 == 1 {
        digits := [1];
        assert ([1] + [1])[1..] == [1 as bit] && [1 as bit][1..] == [];
        assert Sum(digits, index) == Fib(index) + Sum(digits[1..], index + 1);
        TagsHead([1], data, one.0);
        FollowNone(data, two.0);
      } else {
        rest := OnlyDigitsRead(data, two.0, index + 2, value + Fib(index));
        digits := [1, 0] + rest;
        assert digits[1..] == [0] + rest && ([0] + rest)[1..] == rest;
        assert (digits + [1])[1..] == [0] + rest + [1] && ([0] + rest + [1])[1..] == rest + [1];
        TagsHead([0] + rest + [1], data, one.0);
      }
    }
    TagsHead(digits + [1], data, r);
    assert (digits + [1])[1..] == digits[1..] + [1];
  }

  /** The largest value whose code the 32-bit decoder reads. */
  const LARGEST := 2971215073

  lemma FibLimit()
    ensures Fib(45) == LARGEST && Fib(46) >= U32
  {
    assert Fib(2) == 3 && Fib(3) == 5 && Fib(4) == 8 && Fib(5) == 13 && Fib(6) == 21 && Fib(7) == 34;
    assert Fib(8) == 55 && Fib(9) == 89 && Fib(10) == 144 && Fib(11) == 233 && Fib(12) == 377 && Fib(13) == 610;
    assert Fib(14) == 987 && Fib(15) == 1597 && Fib(16) == 2584 && Fib(17) == 4181 && Fib(18) == 6765 && Fib(19) == 10946;
    assert Fib(20) == 17711 && Fib(21) == 28657 && Fib(22) == 46368 && Fib(23) == 75025 && Fib(24) == 121393;
    assert Fib(25) == 196418 && Fib(26) == 317811 && Fib(27) == 514229 && Fib(28) == 832040 && Fib(29) == 1346269;
    assert Fib(30) == 2178309 && Fib(31) == 3524578 && Fib(32) == 5702887 && Fib(33) == 9227465 && Fib(34) == 14930352;
    assert Fib(35) == 24157817 && Fib(36) == 39088169 && Fib(37) == 63245986 && Fib(38) == 102334155;
    assert Fib(39) == 165580141 && Fib(40) == 267914296 && Fib(41) == 433494437 && Fib(42) == 701408733;
    assert Fib(43) == 1134903170 && Fib(44) == 1836311903;
  }

  lemma FitsIff(length: nat)
    ensures Fib(length) < U32 <==> length <= 45
  {
    FibLimit();
    if length <= 45 {
      FibRises(length, 45);
    } else {
      FibRises(46, length);
    }
  }

  lemma ReadOnlyCodes(data: seq<byte>, r: Reader)
    requires Read(data, r).Some?
    ensures var (end, value) := Read(data, r).value;
            2 <= value <= LARGEST && Follow(data, r, Code(value)) == Some(end)
  {
    hide Follow, FibonacciFrom, Fib;
    FibStarts();
    var digits := OnlyDigitsRead(data, r, 0, 1);
    var value := Read(data, r).value.1;
    Nonempty(digits);
    TopDigitCounts(digits);
    ZeckendorfUnique(value - 1, digits);
    SparseBound(digits);
    FibLimit();
    FitsIff(|digits|);
    FibRises(|digits|, 45);
  }

  lemma TopDigitCounts(digits: seq<bit>)
    requires Zeckendorf(digits)
    ensures Sum(digits, 0) >= 1
  {
    var init := digits[..|digits| - 1];
    assert digits == init + [1];
    SumAppends(init, 1, 0);
    FibAtLeastOne(|init|);
  }

  lemma CodesAreRead(data: seq<byte>, r: Reader, value: nat)
    requires 2 <= value <= LARGEST && Follow(data, r, Code(value)).Some?
    ensures Read(data, r) == Some((Follow(data, r, Code(value)).value, value))
  {
    hide Follow, FibonacciFrom, Fib;
    var digits := ZeckendorfOf(value - 1);
    ZeckendorfUnique(value - 1, digits);
    FibStarts();
    LengthFits(value - 1, 1);
    FibLimit();
    if Length(value - 1) > 45 {
      FibRises(45, Length(value - 1) - 1);
    }
    FitsIff(|digits|);
    DigitsRead(data, r, digits, 0, 1);
  }

  lemma FibStarts()
    ensures Fib(0) == 1 && Current(0) == 1 && Previous(0) == 0
  {
  }

  /** The decoder returns a value exactly when it is at most LARGEST and its one Zeckendorf code comes next. */
  lemma CodeIff(data: seq<byte>, r: Reader, end: Reader, value: nat)
    ensures Read(data, r) == Some((end, value))
       <==> 2 <= value <= LARGEST && Follow(data, r, Code(value)) == Some(end)
  {
    hide Follow, Read;
    if Read(data, r).Some? {
      ReadOnlyCodes(data, r);
    }
    if 2 <= value <= LARGEST && Follow(data, r, Code(value)) == Some(end) {
      CodesAreRead(data, r, value);
    }
  }
}
