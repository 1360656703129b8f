/**
  * LZX's canonical Huffman codes. The decoder compares the next 24 bits with one limit per code
  * length; it returns a symbol exactly when the leading bits are that symbol's canonical code.
  */
module Huffman {
  import opened Wrappers
  import opened Bytes
  import opened LzxBits

  const MAX_CODE_LENGTH := 15
  const SYMBOL_LIMIT := 0x1_0000

  // ----- canonical codes

  function Count(lengths: seq<nat>, length: nat): nat {
    if lengths == [] then 0
    else Count(lengths[..|lengths| - 1], length) + if lengths[|lengths| - 1] == length then 1 else 0
  }

  /** The symbols of one length, ascending. */
  function SymbolsOf(lengths: seq<nat>, length: nat): (r: seq<nat>)
    ensures |r| == Count(lengths, length)
  {
    if lengths == [] then []
    else SymbolsOf(lengths[..|lengths| - 1], length) + if lengths[|lengths| - 1] == length then [|lengths| - 1] else []
  }

  /** The first code of a length follows the last one of the length before, with a zero appended. */
  function FirstCode(lengths: seq<nat>, length: nat): nat {
    if length <= 1 then 0 else 2 * (FirstCode(lengths, length - 1) + Count(lengths, length - 1))
  }

  /** Symbols of one length take consecutive codes. */
  function Code(lengths: seq<nat>, symbol: nat): nat
    requires symbol < |lengths|
  {
    FirstCode(lengths, lengths[symbol]) + Count(lengths[..symbol], lengths[symbol])
  }

  // ----- the decoder's tables

  /** How much of the 24-bit window the codes of up to `length` bits take. */
  function Total(lengths: seq<nat>, length: nat): nat
    requires length <= MAX_CODE_LENGTH
  {
    if length == 0 then 0 else Total(lengths, length - 1) + Shift(Count(lengths, length), WINDOW_BITS - length)
  }

  /** The symbols of up to `length` bits, shorter ones first. */
  function Order(lengths: seq<nat>, length: nat): seq<nat> {
    if length == 0 then [] else Order(lengths, length - 1) + SymbolsOf(lengths, length)
  }

  predicate Complete(lengths: seq<nat>) {
    Total(lengths, MAX_CODE_LENGTH) == Pow2(WINDOW_BITS)
  }

  /** What the source accepts: a code that fills the window exactly, or none at all. */
  predicate Accepted(lengths: seq<nat>) {
    && (forall i :: 0 <= i < |lengths| ==> lengths[i] <= MAX_CODE_LENGTH)
    && (forall i :: SYMBOL_LIMIT <= i < |lengths| ==> lengths[i] == 0)
    && (Total(lengths, MAX_CODE_LENGTH) == 0 || Complete(lengths))
  }

  function Level(lengths: seq<nat>, window: nat, length: nat): Option<nat>
    decreases MAX_CODE_LENGTH + 1 - length
  {
    if length > MAX_CODE_LENGTH then None
    else if window < Total(lengths, length) then Some(length)
    else Level(lengths, window, length + 1)
  }

  lemma {:induction false} LevelIsFirst(lengths: seq<nat>, window: nat, length: nat)
    requires 1 <= length && (length <= MAX_CODE_LENGTH + 1 ==> window >= Total(lengths, length - 1))
    ensures var level := Level(lengths, window, length);
            level.Some? ==> (length <= level.value <= MAX_CODE_LENGTH
                             && Total(lengths, level.value - 1) <= window < Total(lengths, level.value))
    decreases MAX_CODE_LENGTH + 1 - length
  {
    hide Total;
    if length <= MAX_CODE_LENGTH && window >= Total(lengths, length) {
      LevelIsFirst(lengths, window, length + 1);
    }
  }

  /** How many codes of its length stand before the one the window begins with. */
  function OffsetIn(lengths: seq<nat>, window: nat, length: nat): nat
    requires 1 <= length <= MAX_CODE_LENGTH && Total(lengths, length - 1) <= window
  {
    HighBits(window - Total(lengths, length - 1), WINDOW_BITS - length)
  }

  /** The symbol the tables give for a window, and how many bits it takes. */
  function Lookup(lengths: seq<nat>, window: nat): Option<(nat, nat)> {
    var length :- Level(lengths, window, 1);
    LevelIsFirst(lengths, window, 1);
    var index := |Order(lengths, length - 1)| + OffsetIn(lengths, window, length);
    var symbols := Order(lengths, MAX_CODE_LENGTH);
    if index < |symbols| then Some((symbols[index], length)) else None
  }

  function Decode(lengths: seq<nat>, data: seq<byte>, at: nat): Option<(nat, nat)> {
    var window :- Window(data, at);
    var (symbol, length) :- Lookup(lengths, window);
    Some((symbol, at + length))
  }

  // ----- arithmetic of leading bits

  lemma {:induction false} HighBitsBelowIff(x: nat, drop: nat, limit: nat)
    ensures HighBits(x, drop) < limit <==> x < Shift(limit, drop)
    decreases drop
  {
    if drop > 0 {
      HighBitsBelowIff(x / 2, drop - 1, limit);
    }
  }

  lemma {:induction false} HighBitsOfSum(a: nat, x: nat, drop: nat)
    ensures HighBits(Shift(a, drop) + x, drop) == a + HighBits(x, drop)
    decreases drop
  {
    if drop > 0 {
      assert (Shift(a, drop) + x) / 2 == Shift(a, drop - 1) + x / 2;
      HighBitsOfSum(a, x / 2, drop - 1);
    }
  }

  lemma {:induction false} TotalIsFirstCode(lengths: seq<nat>, length: nat)
    requires 1 <= length <= MAX_CODE_LENGTH
    ensures Total(lengths, length - 1) == Shift(FirstCode(lengths, length), WINDOW_BITS - length)
  {
    if length == 1 {
      ShiftOfBit(WINDOW_BITS - 1);
    } else {
      TotalIsFirstCode(lengths, length - 1);
      var n := WINDOW_BITS - length + 1;
      ShiftAdds(FirstCode(lengths, length - 1), Count(lengths, length - 1), n);
      ShiftFirst(FirstCode(lengths, length - 1) + Count(lengths, length - 1), n);
    }
  }

  lemma {:induction false} TotalGrows(lengths: seq<nat>, a: nat, b: nat)
    requires a <= b <= MAX_CODE_LENGTH
    ensures Total(lengths, a) <= Total(lengths, b)
  {
    if a < b {
      TotalGrows(lengths, a, b - 1);
    }
  }

  lemma {:induction false} LevelFound(lengths: seq<nat>, window: nat, from: nat, length: nat)
    requires 1 <= from <= length <= MAX_CODE_LENGTH
    requires Total(lengths, length - 1) <= window < Total(lengths, length)
    ensures Level(lengths, window, from) == Some(length)
    decreases length - from
  {
    if from < length {
      TotalGrows(lengths, from, length - 1);
      LevelFound(lengths, window, from + 1, length);
    }
  }

  // ----- which symbol stands where

  lemma {:induction false} SymbolAtRank(lengths: seq<nat>, length: nat, rank: nat)
    requires rank < Count(lengths, length)
    ensures var s := SymbolsOf(lengths, length)[rank];
            s < |lengths| && lengths[s] == length && Count(lengths[..s], length) == rank
  {
    var init := lengths[..|lengths| - 1];
    if rank < Count(init, length) {
      SymbolAtRank(init, length, rank);
      var s := SymbolsOf(init, length)[rank];
      assert lengths[..s] == init[..s];
    } else {
      assert lengths[..|lengths| - 1] == init;
    }
  }

  lemma {:induction false} RankOfSymbol(lengths: seq<nat>, symbol: nat)
    requires symbol < |lengths|
    ensures var rank := Count(lengths[..symbol], lengths[symbol]);
            rank < Count(lengths, lengths[symbol]) && SymbolsOf(lengths, lengths[symbol])[rank] == symbol
  {
    var init := lengths[..|lengths| - 1];
    if symbol < |init| {
      RankOfSymbol(init, symbol);
      assert lengths[..symbol] == init[..symbol];
    }
  }

  lemma {:induction false} OrderPrefix(lengths: seq<nat>, a: nat, b: nat)
    requires a <= b
    ensures Order(lengths, a) <= Order(lengths, b)
    decreases b
  {
    if a < b {
      OrderPrefix(lengths, a, b - 1);
    }
  }

  lemma SymbolInOrder(lengths: seq<nat>, length: nat, rank: nat)
    requires 1 <= length <= MAX_CODE_LENGTH && rank < Count(lengths, length)
    ensures var index := |Order(lengths, length - 1)| + rank;
            && index < |Order(lengths, MAX_CODE_LENGTH)|
            && Order(lengths, MAX_CODE_LENGTH)[index] == SymbolsOf(lengths, length)[rank]
  {
    hide Order, SymbolsOf;
    OrderPrefix(lengths, length, MAX_CODE_LENGTH);
    OrderStep(lengths, length);
  }

  lemma OrderStep(lengths: seq<nat>, length: nat)
    requires length >= 1
    ensures Order(lengths, length) == Order(lengths, length - 1) + SymbolsOf(lengths, length)
    ensures |Order(lengths, length)| == |Order(lengths, length - 1)| + Count(lengths, length)
    ensures Order(lengths, 0) == []
  {
  }

  /** The order is the stable sort by length of the symbols in use. */
  lemma {:induction false} OrderIsStable(lengths: seq<nat>, length: nat, i: nat, j: nat)
    requires i < j < |Order(lengths, length)|
    ensures var a, b := Order(lengths, length)[i], Order(lengths, length)[j];
            && a < |lengths| && b < |lengths| && 1 <= lengths[a] <= lengths[b] <= length
            && (lengths[a] == lengths[b] ==> a < b)
    decreases length
  {
    var before := Order(lengths, length - 1);
    if j < |before| {
      OrderIsStable(lengths, length - 1, i, j);
    } else {
      SymbolAtRank(lengths, length, j - |before|);
      if i < |before| {
        InOrder(lengths, length - 1, i);
      } else {
        SymbolAtRank(lengths, length, i - |before|);
        RanksAscend(lengths, length, i - |before|, j - |before|);
      }
    }
  }

  lemma {:induction false} InOrder(lengths: seq<nat>, length: nat, i: nat)
    requires i < |Order(lengths, length)|
    ensures var s := Order(lengths, length)[i]; s < |lengths| && 1 <= lengths[s] <= length
    decreases length
  {
    var before := Order(lengths, length - 1);
    if i < |before| {
      InOrder(lengths, length - 1, i);
    } else {
      SymbolAtRank(lengths, length, i - |before|);
    }
  }

  lemma {:induction false} RanksAscend(lengths: seq<nat>, length: nat, i: nat, j: nat)
    requires i < j < Count(lengths, length)
    ensures SymbolsOf(lengths, length)[i] < SymbolsOf(lengths, length)[j]
  {
    var init := lengths[..|lengths| - 1];
    if j < Count(init, length) {
      RanksAscend(init, length, i, j);
    } else {
      SymbolAtRank(init, length, i);
    }
  }

  // ----- the code is a prefix code

  /** The window begins with the symbol's code. */
  predicate Begins(lengths: seq<nat>, window: nat, symbol: nat, length: nat) {
    && symbol < |lengths| && lengths[symbol] == length && 1 <= length <= MAX_CODE_LENGTH
    && HighBits(window, WINDOW_BITS - length) == Code(lengths, symbol)
  }

  lemma LookupOnlyBegins(lengths: seq<nat>, window: nat)
    requires Lookup(lengths, window).Some?
    ensures var (symbol, length) := Lookup(lengths, window).value; Begins(lengths, window, symbol, length)
  {
    hide Total, FirstCode, Order, Count, SymbolsOf, HighBits, Shift;
    LevelIsFirst(lengths, window, 1) by { TotalStarts(lengths); }
    var length := Level(lengths, window, 1).value;
    var start := Total(lengths, length - 1);
    var offset := HighBits(window - start, WINDOW_BITS - length);
    TotalStep(lengths, length);
    HighBitsBelowIff(window - start, WINDOW_BITS - length, Count(lengths, length));
    SymbolInOrder(lengths, length, offset);
    SymbolAtRank(lengths, length, offset);
    TotalIsFirstCode(lengths, length);
    HighBitsOfSum(FirstCode(lengths, length), window - start, WINDOW_BITS - length);
  }

  lemma TotalStarts(lengths: seq<nat>)
    ensures Total(lengths, 0) == 0
  {
  }

  lemma TotalStep(lengths: seq<nat>, length: nat)
    requires 1 <= length <= MAX_CODE_LENGTH
    ensures Total(lengths, length) == Total(lengths, length - 1) + Shift(Count(lengths, length), WINDOW_BITS - length)
  {
  }

  lemma BeginningIsLookedUp(lengths: seq<nat>, window: nat, symbol: nat, length: nat)
    requires Begins(lengths, window, symbol, length)
    ensures Lookup(lengths, window) == Some((symbol, length))
  {
    hide Total, FirstCode, Order, Count, SymbolsOf, HighBits, Shift, Level;
    var n := WINDOW_BITS - length;
    var rank := Count(lengths[..symbol], length);
    RankOfSymbol(lengths, symbol);
    TotalIsFirstCode(lengths, length);
    TotalStep(lengths, length);
    HighBitsBelowIff(window, n, FirstCode(lengths, length));
    HighBitsBelowIff(window, n, FirstCode(lengths, length) + Count(lengths, length));
    ShiftAdds(FirstCode(lengths, length), Count(lengths, length), n);
    LevelFound(lengths, window, 1, length);
    HighBitsOfSum(FirstCode(lengths, length), window - Total(lengths, length - 1), n);
    SymbolInOrder(lengths, length, rank);
  }

  /** The tables give a symbol exactly when the window begins with its code. */
  lemma LookupIff(lengths: seq<nat>, window: nat, symbol: nat, length: nat)
    ensures Lookup(lengths, window) == Some((symbol, length)) <==> Begins(lengths, window, symbol, length)
  {
    hide Lookup, Begins;
    if Lookup(lengths, window) == Some((symbol, length)) {
      LookupOnlyBegins(lengths, window);
    }
    if Begins(lengths, window, symbol, length) {
      BeginningIsLookedUp(lengths, window, symbol, length);
    }
  }

  /** No window begins with two codes. */
  lemma CodesAreDisjoint(lengths: seq<nat>, window: nat, s: nat, t: nat)
    requires s < |lengths| && t < |lengths|
    requires Begins(lengths, window, s, lengths[s]) && Begins(lengths, window, t, lengths[t])
    ensures s == t
  {
    LookupIff(lengths, window, s, lengths[s]);
    LookupIff(lengths, window, t, lengths[t]);
  }

  /** When the lengths fill the code space, every window begins with exactly one code; an empty code has none. */
  lemma CompleteCodesCover(lengths: seq<nat>, window: nat)
    requires Accepted(lengths) && window < Pow2(WINDOW_BITS)
    ensures Complete(lengths) <==> exists s: nat :: s < |lengths| && Begins(lengths, window, s, lengths[s])
  {
    hide Begins, Pow2;
    if Complete(lengths) {
      SomeLevel(lengths, window, 1);
      LookupSucceeds(lengths, window);
      LookupOnlyBegins(lengths, window);
      var s := Lookup(lengths, window).value.0;
      BeginsFits(lengths, window, s, Lookup(lengths, window).value.1);
    } else if s: nat :| s < |lengths| && Begins(lengths, window, s, lengths[s]) {
      LookupIff(lengths, window, s, lengths[s]);
      LevelIsFirst(lengths, window, 1);
      TotalGrows(lengths, Level(lengths, window, 1).value, MAX_CODE_LENGTH);
    }
  }

  lemma BeginsFits(lengths: seq<nat>, window: nat, symbol: nat, length: nat)
    requires Begins(lengths, window, symbol, length)
    ensures symbol < |lengths| && Begins(lengths, window, symbol, lengths[symbol])
  {
  }

  lemma {:induction false} SomeLevel(lengths: seq<nat>, window: nat, from: nat)
    requires 1 <= from <= MAX_CODE_LENGTH && window < Total(lengths, MAX_CODE_LENGTH)
    ensures Level(lengths, window, from).Some?
    decreases MAX_CODE_LENGTH - from
  {
    if from < MAX_CODE_LENGTH {
      SomeLevel(lengths, window, from + 1);
    }
  }

  lemma LookupSucceeds(lengths: seq<nat>, window: nat)
    requires Level(lengths, window, 1).Some?
    ensures Lookup(lengths, window).Some?
  {
    hide Total, Order, Count, SymbolsOf, HighBits, Shift;
    LevelIsFirst(lengths, window, 1) by { TotalStarts(lengths); }
    var length := Level(lengths, window, 1).value;
    TotalStep(lengths, length);
    HighBitsBelowIff(window - Total(lengths, length - 1), WINDOW_BITS - length, Count(lengths, length));
    SymbolInOrder(lengths, length, HighBits(window - Total(lengths, length - 1), WINDOW_BITS - length));
  }

  /** The bits at hand spell the symbol's code, and the reader may look far enough. */
  predicate Spells(lengths: seq<nat>, data: seq<byte>, at: nat, symbol: nat) {
    && MayPeek(data, at) && symbol < |lengths| && 1 <= lengths[symbol] <= MAX_CODE_LENGTH
    && BitsAt(data, at, lengths[symbol]) == Code(lengths, symbol)
  }

  lemma DecodeOnlySpelled(lengths: seq<nat>, data: seq<byte>, at: nat)
    requires Decode(lengths, data, at).Some?
    ensures var (symbol, end) := Decode(lengths, data, at).value;
            Spells(lengths, data, at, symbol) && end == at + lengths[symbol]
  {
    hide Lookup, BitsAt, HighBits, Code;
    var window := BitsAt(data, at, WINDOW_BITS);
    var (symbol, length) := Lookup(lengths, window).value;
    LookupIff(lengths, window, symbol, length);
    DropLowBits(data, at, WINDOW_BITS, WINDOW_BITS - length);
  }

  lemma SpelledIsDecoded(lengths: seq<nat>, data: seq<byte>, at: nat, symbol: nat)
    requires Spells(lengths, data, at, symbol)
    ensures Decode(lengths, data, at) == Some((symbol, at + lengths[symbol]))
  {
    hide Lookup, BitsAt, HighBits, Code;
    var window := BitsAt(data, at, WINDOW_BITS);
    DropLowBits(data, at, WINDOW_BITS, WINDOW_BITS - lengths[symbol]);
    LookupIff(lengths, window, symbol, lengths[symbol]);
  }

  /** Decoding returns a symbol exactly when the bits at hand spell its code. */
  lemma DecodeIff(lengths: seq<nat>, data: seq<byte>, at: nat, symbol: nat, end: nat)
    ensures Decode(lengths, data, at) == Some((symbol, end))
       <==> Spells(lengths, data, at, symbol) && end == at + lengths[symbol]
  {
    hide Decode, Spells;
    if Decode(lengths, data, at).Some? {
      DecodeOnlySpelled(lengths, data, at);
    }
    if Spells(lengths, data, at, symbol) {
      SpelledIsDecoded(lengths, data, at, symbol);
    }
  }

  /** A code has no more bits than its symbol's length says. */
  lemma CodeFits(lengths: seq<nat>, symbol: nat)
    requires Accepted(lengths) && symbol < |lengths| && lengths[symbol] >= 1
    ensures Code(lengths, symbol) < Pow2(lengths[symbol])
  {
    hide Total, FirstCode, Count, Shift;
    var length := lengths[symbol];
    var n := WINDOW_BITS - length;
    var last := FirstCode(lengths, length) + Count(lengths, length);
    RankOfSymbol(lengths, symbol);
    TotalIsFirstCode(lengths, length);
    TotalStep(lengths, length);
    ShiftAdds(FirstCode(lengths, length), Count(lengths, length), n);
    TotalGrows(lengths, length, MAX_CODE_LENGTH);
    ShiftOfPower(length, n);
    if last > Pow2(length) {
      ShiftGrows(Pow2(length) + 1, last, n);
      ShiftAdds(Pow2(length), 1, n);
      ShiftGrows(1, 1, n);
    }
  }

  // ----- building the tables and using them

  datatype Tree = Tree(limits: seq<nat>, starts: seq<nat>, firsts: seq<nat>, symbols: seq<nat>)

  /** The tree holds the tables of these lengths. */
  predicate TablesOf(tree: Tree, lengths: seq<nat>) {
    && |tree.limits| == |tree.starts| == |tree.firsts| == MAX_CODE_LENGTH + 1
    && (forall l :: 1 <= l <= MAX_CODE_LENGTH ==> tree.limits[l] == Total(lengths, l))
    && (forall l :: 1 <= l <= MAX_CODE_LENGTH ==> tree.starts[l] == Total(lengths, l - 1))
    && (forall l :: 1 <= l <= MAX_CODE_LENGTH ==> tree.firsts[l] == |Order(lengths, l - 1)|)
    && tree.symbols == Order(lengths, MAX_CODE_LENGTH)
  }

  method CountLengths(lengths: seq<nat>) returns (counts: Option<seq<nat>>)
    ensures counts.Some? <==> forall i :: 0 <= i < |lengths| ==> lengths[i] <= MAX_CODE_LENGTH
    ensures counts.Some? ==> |counts.value| == MAX_CODE_LENGTH + 1
    ensures counts.Some? ==> forall l :: 0 <= l <= MAX_CODE_LENGTH ==> counts.value[l] == Count(lengths, l)
  {
    var tally := seq(MAX_CODE_LENGTH + 1, _ => 0);
    for i := 0 to |lengths|
      invariant |tally| == MAX_CODE_LENGTH + 1
      invariant forall k :: 0 <= k < i ==> lengths[k] <= MAX_CODE_LENGTH
      invariant forall l :: 0 <= l <= MAX_CODE_LENGTH ==> tally[l] == Count(lengths[..i], l)
    {
      if lengths[i] > MAX_CODE_LENGTH {
        return None;
      }
      assert lengths[..i + 1][..i] == lengths[..i];
      tally := tally[lengths[i] := tally[lengths[i]] + 1];
    }
    assert lengths[..|lengths|] == lengths;
    return Some(tally);
  }

  method New(lengths: seq<nat>) returns (tree: Option<Tree>)
    ensures tree.Some? <==> Accepted(lengths)
    ensures tree.Some? ==> TablesOf(tree.value, lengths)
  {
    var counts := CountLengths(lengths);
    if counts.None? {
      return None;
    }
    for i := SYMBOL_LIMIT to if |lengths| < SYMBOL_LIMIT then SYMBOL_LIMIT else |lengths|
      invariant forall k :: SYMBOL_LIMIT <= k < i ==> k < |lengths| && lengths[k] == 0
    {
      if lengths[i] != 0 {
        return None;
      }
    }

    var limits, starts, firsts := FillTables(lengths, counts.value);
    var total := limits[MAX_CODE_LENGTH];
    if total != 0 && total != Pow2(WINDOW_BITS) {
      return None;
    }
    return Some(Tree(limits, starts, firsts, Order(lengths, MAX_CODE_LENGTH)));
  }

  method FillTables(lengths: seq<nat>, counts: seq<nat>) returns (limits: seq<nat>, starts: seq<nat>, firsts: seq<nat>)
    requires |counts| == MAX_CODE_LENGTH + 1 && forall l :: 0 <= l <= MAX_CODE_LENGTH ==> counts[l] == Count(lengths, l)
    ensures |limits| == |starts| == |firsts| == MAX_CODE_LENGTH + 1
    ensures forall l :: 1 <= l <= MAX_CODE_LENGTH ==> limits[l] == Total(lengths, l)
    ensures forall l :: 1 <= l <= MAX_CODE_LENGTH ==> starts[l] == Total(lengths, l - 1)
    ensures forall l :: 1 <= l <= MAX_CODE_LENGTH ==> firsts[l] == |Order(lengths, l - 1)|
  {
    hide Total, Order, Count, SymbolsOf, Shift;
    var zeros := seq(MAX_CODE_LENGTH + 1, _ => 0);
    limits, starts, firsts := zeros, zeros, zeros;
    var total: nat, index: nat := 0, 0;
    TotalStarts(lengths);
    OrderStep(lengths, 1);
    for length := 1 to MAX_CODE_LENGTH + 1
      invariant |limits| == |starts| == |firsts| == MAX_CODE_LENGTH + 1
      invariant total == Total(lengths, length - 1) && index == |Order(lengths, length - 1)|
      invariant forall l :: 1 <= l < length ==> limits[l] == Total(lengths, l)
      invariant forall l :: 1 <= l < length ==> starts[l] == Total(lengths, l - 1)
      invariant forall l :: 1 <= l < length ==> firsts[l] == |Order(lengths, l - 1)|
    {
      TotalStep(lengths, length);
      OrderStep(lengths, length);
      starts := starts[length := total];
      firsts := firsts[length := index];
      total := total + Shift(counts[length], WINDOW_BITS - length);
      limits := limits[length := total];
      index := index + counts[length];
    }
  }

  method DecodeSymbol(tree: Tree, ghost lengths: seq<nat>, bits: Bits) returns (symbol: Option<nat>)
    requires TablesOf(tree, lengths) && bits.Valid()
    modifies bits
    ensures bits.Valid()
    ensures match Decode(lengths, bits.data, old(bits.Position()))
            case None => symbol.None?
            case Some(spec) => symbol == Some(spec.0) && bits.Position() == spec.1
  {
    hide Total, Order, Count, SymbolsOf, HighBits, Shift, Window;
    var window := bits.Peek();
    if window.None? {
      return None;
    }
    TotalStarts(lengths);
    var length: nat := 1;
    while length <= MAX_CODE_LENGTH && window.value >= tree.limits[length]
      invariant 1 <= length <= MAX_CODE_LENGTH + 1
      invariant Level(lengths, window.value, length) == Level(lengths, window.value, 1)
      invariant window.value >= Total(lengths, length - 1)
    {
      length := length + 1;
    }
    if length > MAX_CODE_LENGTH {
      return None;
    }
    bits.Skip(length);
    var offset := HighBits(window.value - tree.starts[length], WINDOW_BITS - length);
    if tree.firsts[length] + offset >= |tree.symbols| {
      return None;
    }
    return Some(tree.symbols[tree.firsts[length] + offset]);
  }
}
