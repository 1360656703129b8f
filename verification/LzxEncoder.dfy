/**
  * An LZX encoder, as the specification the decoder is proved against: tree scripts, tokens and
  * their meaning, and the bytes that carry them.
  */
module LzxEncoder {
  import opened Wrappers
  import opened Bytes
  import opened Lz
  import opened LzxBits
  import opened Lzx
  import opened Bitstream
  import Huffman

  // ----- what a stream consists of

  /** A plain number of some bits, or a symbol in the code of some lengths. */
  datatype Op = Fixed(value: nat, count: nat) | Symbol(lengths: seq<nat>, symbol: nat)

  predicate InTree(lengths: seq<nat>, symbol: nat) {
    Huffman.Accepted(lengths) && symbol < |lengths| && lengths[symbol] >= 1
  }

  predicate Codable(op: Op) {
    match op
    case Fixed(value, count) => count <= WINDOW_BITS && value < Pow2(count)
    case Symbol(lengths, symbol) => InTree(lengths, symbol)
  }

  function Width(op: Op): nat
    requires Codable(op)
  {
    if op.Fixed? then op.count else op.lengths[op.symbol]
  }

  function ReadOp(data: seq<byte>, at: nat, op: Op): Option<nat>
    requires Codable(op)
  {
    match op
    case Fixed(value, count) => if Taken(data, at, count) == Some(value) then Some(at + count) else None
    case Symbol(lengths, symbol) =>
      if Huffman.Decode(lengths, data, at) == Some((symbol, at + lengths[symbol])) then Some(at + lengths[symbol]) else None
  }

  predicate AllCodable(ops: seq<Op>) {
    forall op :: op in ops ==> Codable(op)
  }

  /** Where reading the ops one by one ends, if the data holds exactly them. */
  function Follow(data: seq<byte>, at: nat, ops: seq<Op>): Option<nat>
    requires AllCodable(ops)
    decreases |ops|
  {
    if ops == [] then Some(at)
    else
      var at :- ReadOp(data, at, ops[0]);
      Follow(data, at, ops[1..])
  }

  lemma {:induction false} FollowBoth(data: seq<byte>, at: nat, first: seq<Op>, second: seq<Op>)
    requires AllCodable(first) && AllCodable(second)
    ensures AllCodable(first + second)
    ensures Follow(data, at, first + second)
         == if Follow(data, at, first).None? then None else Follow(data, Follow(data, at, first).value, second)
    decreases |first|
  {
    hide ReadOp;
    if first == [] {
      assert first + second == second;
    } else {
      assert (first + second)[1..] == first[1..] + second;
      var read := ReadOp(data, at, first[0]);
      if read.Some? {
        FollowBoth(data, read.value, first[1..], second);
      } else {
        FollowBoth(data, at, first[1..], second);
      }
    }
  }

  lemma FollowOne(data: seq<byte>, at: nat, op: Op)
    requires Codable(op)
    ensures Follow(data, at, [op]) == ReadOp(data, at, op)
  {
    hide ReadOp;
    assert [op][1..] == [];
  }

  // ----- tree scripts

  datatype Item = Delta(delta: nat) | Again(extra: nat) | FewZeros(extra: nat) | ManyZeros(extra: nat)

  /** How new code lengths are sent: from zero or from the old ones, by a pretree and runs in its code. */
  datatype Script = Script(keep: bool, pretree: seq<nat>, items: seq<Item>)

  predicate ItemFits(pretree: seq<nat>, item: Item) {
    && |pretree| == 19
    && match item
       case Delta(delta) => delta < 16 && pretree[delta] >= 1
       case Again(extra) => extra < 4 && pretree[16] >= 1
       case FewZeros(extra) => extra < 8 && pretree[17] >= 1
       case ManyZeros(extra) => extra < 128 && pretree[18] >= 1
  }

  function ItemRun(previous: seq<nat>, lengths: seq<nat>, item: Item): seq<nat>
    requires |lengths| < |previous|
  {
    match item
    case Delta(delta) => [(previous[|lengths|] + delta) % 16]
    case Again(extra) => Copies(if lengths == [] then 0 else lengths[|lengths| - 1], 3 + extra)
    case FewZeros(extra) => Copies(0, 3 + extra)
    case ManyZeros(extra) => Copies(0, 11 + extra)
  }

  /** The runs cover all symbols, the last one perhaps too many. */
  predicate Covers(previous: seq<nat>, lengths: seq<nat>, pretree: seq<nat>, items: seq<Item>)
    requires |previous| == ALL_SYMBOLS
    decreases |items|
  {
    if |lengths| >= ALL_SYMBOLS then items == []
    else
      && items != [] && ItemFits(pretree, items[0])
      && Covers(previous, lengths + ItemRun(previous, lengths, items[0]), pretree, items[1..])
  }

  function LengthsOf(previous: seq<nat>, lengths: seq<nat>, pretree: seq<nat>, items: seq<Item>): (r: seq<nat>)
    requires |previous| == ALL_SYMBOLS && Covers(previous, lengths, pretree, items)
    ensures |r| == ALL_SYMBOLS
    decreases |items|
  {
    if |lengths| >= ALL_SYMBOLS then lengths[..ALL_SYMBOLS]
    else LengthsOf(previous, lengths + ItemRun(previous, lengths, items[0]), pretree, items[1..])
  }

  function Before(previous: seq<nat>, script: Script): (r: seq<nat>)
    requires |previous| == ALL_SYMBOLS
    ensures |r| == ALL_SYMBOLS
  {
    if script.keep then previous else Copies(0, ALL_SYMBOLS)
  }

  predicate ScriptFits(previous: seq<nat>, script: Script)
    requires |previous| == ALL_SYMBOLS
  {
    && |script.pretree| == 19 && Huffman.Accepted(script.pretree)
    && Covers(Before(previous, script), [], script.pretree, script.items)
    && TreesOf(LengthsOf(Before(previous, script), [], script.pretree, script.items)).Some?
  }

  function NewLengths(previous: seq<nat>, script: Script): (r: seq<nat>)
    requires |previous| == ALL_SYMBOLS && ScriptFits(previous, script)
    ensures |r| == ALL_SYMBOLS
  {
    LengthsOf(Before(previous, script), [], script.pretree, script.items)
  }

  function PretreeOps(pretree: seq<nat>): seq<Op>
    requires forall i :: 0 <= i < |pretree| ==> pretree[i] < 16
    ensures AllCodable(PretreeOps(pretree))
  {
    SmallPowers();
    if pretree == [] then [] else PretreeOps(pretree[..|pretree| - 1]) + [Fixed(pretree[|pretree| - 1], 4)]
  }

  function ItemOps(pretree: seq<nat>, item: Item): seq<Op>
    requires ItemFits(pretree, item) && Huffman.Accepted(pretree)
    ensures AllCodable(ItemOps(pretree, item))
  {
    SmallPowers();
    match item
    case Delta(delta) => [Symbol(pretree, delta)]
    case Again(extra) => [Symbol(pretree, 16)] + [Fixed(extra, 2)]
    case FewZeros(extra) => [Symbol(pretree, 17)] + [Fixed(extra, 3)]
    case ManyZeros(extra) => [Symbol(pretree, 18)] + [Fixed(extra, 7)]
  }

  function ItemsOps(previous: seq<nat>, lengths: seq<nat>, pretree: seq<nat>, items: seq<Item>): seq<Op>
    requires |previous| == ALL_SYMBOLS && Covers(previous, lengths, pretree, items) && Huffman.Accepted(pretree)
    ensures AllCodable(ItemsOps(previous, lengths, pretree, items))
    decreases |items|
  {
    if items == [] then []
    else
      ItemOps(pretree, items[0])
      + ItemsOps(previous, lengths + ItemRun(previous, lengths, items[0]), pretree, items[1..])
  }

  function ScriptOps(previous: seq<nat>, script: Script): seq<Op>
    requires |previous| == ALL_SYMBOLS && ScriptFits(previous, script)
    ensures AllCodable(ScriptOps(previous, script))
  {
    SmallPowers();
    [Fixed(if script.keep then 1 else 0, 1)]
    + (PretreeOps(script.pretree) + ItemsOps(Before(previous, script), [], script.pretree, script.items))
  }

  /** The three trees' lengths stand behind each other; eight threes at the end stand for no aligned tree. */
  lemma TreesIff(lengths: seq<nat>, trees: Trees)
    requires |lengths| == 757
    ensures TreesOf(lengths) == Some(trees) <==>
      && trees.main == lengths[..721] && trees.length == lengths[721..749]
      && Huffman.Accepted(trees.main) && Huffman.Accepted(trees.length)
      && (trees.aligned.None? <==> forall k :: 749 <= k < 757 ==> lengths[k] == 3)
      && (trees.aligned.Some? ==> trees.aligned.value == lengths[749..] && Huffman.Accepted(trees.aligned.value))
  {
    hide Huffman.Accepted;
    var aligned := lengths[749..];
    assert aligned == Copies(3, 8) <==> forall k :: 749 <= k < 757 ==> lengths[k] == 3 by {
      if aligned == Copies(3, 8) {
        forall k | 749 <= k < 757
          ensures lengths[k] == 3
        {
          assert aligned[k - 749] == Copies(3, 8)[k - 749];
        }
      }
    }
  }

  // ----- offset slots

  /** The slot has a place for the number: one for each value of its bits, from its base on. */
  ghost predicate InSlot(bits: seq<nat>, slot: nat, value: nat)
    requires slot < |bits|
  {
    OffsetBase(bits, slot) <= value < OffsetBase(bits, slot) + Pow2(bits[slot])
  }

  /** The slots share the numbers out in order: those below a slot's base are in one slot before it each. */
  lemma {:induction false} SlotsShareOut(bits: seq<nat>, count: nat, value: nat)
    requires count <= |bits|
    ensures value < OffsetBase(bits, count) <==> exists slot: nat :: slot < count && InSlot(bits, slot, value)
    ensures forall s: nat, t: nat :: s < t < count && InSlot(bits, s, value) ==> !InSlot(bits, t, value)
    decreases count
  {
    hide Pow2;
    if count > 0 {
      SlotsShareOut(bits, count - 1, value);
      assert value < OffsetBase(bits, count) <==> value < OffsetBase(bits, count - 1) || InSlot(bits, count - 1, value);
    }
  }

  // ----- tokens and what they mean

  datatype LengthChoice = Short(less: nat) | Long(index: nat, extra: nat)

  datatype Token = Literal(value: byte) | Match(slot: nat, low: nat, length: LengthChoice) | NewTrees(script: Script)

  function LengthOf(tables: Tables, choice: LengthChoice): nat
    requires tables.Valid() && (choice.Long? ==> choice.index < LENGTH_SYMBOLS)
  {
    if choice.Short? then choice.less + 2 else 9 + tables.lengthBase[choice.index] + choice.extra
  }

  function SlotSymbol(slot: nat, choice: LengthChoice): nat {
    256 + slot * 8 + if choice.Short? then choice.less else 7
  }

  predicate LengthAllowed(tables: Tables, trees: Trees, choice: LengthChoice)
    requires tables.Valid()
  {
    match choice
    case Short(less) => less < 7
    case Long(index, extra) => index < LENGTH_SYMBOLS && extra < Pow2(tables.lengthBits[index]) && InTree(trees.length, index)
  }

  predicate UsesAligned(tables: Tables, trees: Trees, slot: nat)
    requires tables.Valid() && slot < OFFSET_SLOTS
  {
    trees.aligned.Some? && tables.offsetBits[slot] >= 3
  }

  predicate OffsetAllowed(tables: Tables, trees: Trees, slot: nat, low: nat)
    requires tables.Valid()
  {
    && slot < OFFSET_SLOTS && low < Pow2(tables.offsetBits[slot])
    && (UsesAligned(tables, trees, slot) ==> InTree(trees.aligned.value, low % 8))
  }

  function ValueOf(tables: Tables, slot: nat, low: nat): nat
    requires tables.Valid() && slot < OFFSET_SLOTS
  {
    OffsetBase(tables.offsetBits, slot) + low
  }

  /** The three recent offsets: a small value fetches one to the front in exchange, a larger one is new. */
  function Remembered(recent: seq<nat>, value: nat): (r: seq<nat>)
    requires |recent| == 3
    ensures |r| == 3
  {
    match value
    case 0 => recent
    case 1 => [recent[1], recent[0], recent[2]]
    case 2 => [recent[2], recent[1], recent[0]]
    case _ => [value - 3, recent[0], recent[1]]
  }

  /** A match copies from behind its offset, and not past the end of the output. */
  function Copy(h: History, recent: seq<nat>, length: nat, size: nat): History
    requires |recent| == 3 && recent[0] < |h.output| <= size
  {
    History(Extend(h.output, recent[0] + 1, if |h.output| + length <= size then length else size - |h.output|), recent)
  }

  lemma CopiedIs(h: History, value: nat, length: nat, size: nat)
    requires h.Valid() && |h.output| <= size
    ensures var recent := Remembered(h.repeats, value);
      Copied(h, value, length, size) == if recent[0] < |h.output| then Some(Copy(h, recent, length, size)) else None
  {
    hide Extend;
    assert Recall(h.repeats, value) == Remembered(h.repeats, value);
  }

  predicate Allowed(tables: Tables, s: Session, t: Token, size: nat)
    requires tables.Valid()
  {
    && s.Valid(size) && |s.history.output| < size
    && match t
       case Literal(value) => InTree(s.trees.main, value)
       case NewTrees(script) => InTree(s.trees.main, 720) && ScriptFits(s.previous, script)
       case Match(slot, low, length) =>
         && LengthAllowed(tables, s.trees, length) && OffsetAllowed(tables, s.trees, slot, low)
         && InTree(s.trees.main, SlotSymbol(slot, length))
         && Remembered(s.history.repeats, ValueOf(tables, slot, low))[0] < |s.history.output|
  }

  function Apply(tables: Tables, s: Session, t: Token, size: nat): (r: Session)
    requires tables.Valid() && Allowed(tables, s, t, size)
    ensures r.Valid(size)
  {
    match t
    case Literal(value) => s.(history := s.history.(output := s.history.output + [value]))
    case NewTrees(script) =>
      var lengths := NewLengths(s.previous, script);
      Session(TreesOf(lengths).value, lengths, s.history)
    case Match(slot, low, length) =>
      var recent := Remembered(s.history.repeats, ValueOf(tables, slot, low));
      s.(history := Copy(s.history, recent, LengthOf(tables, length), size))
  }

  predicate Fills(tables: Tables, s: Session, tokens: seq<Token>, size: nat)
    requires tables.Valid() && s.Valid(size)
    decreases |tokens|
  {
    if tokens == [] then |s.history.output| == size
    else Allowed(tables, s, tokens[0], size) && Fills(tables, Apply(tables, s, tokens[0], size), tokens[1..], size)
  }

  function Expand(tables: Tables, s: Session, tokens: seq<Token>, size: nat): (out: seq<byte>)
    requires tables.Valid() && s.Valid(size) && Fills(tables, s, tokens, size)
    ensures |out| == size
    decreases |tokens|
  {
    if tokens == [] then s.history.output else Expand(tables, Apply(tables, s, tokens[0], size), tokens[1..], size)
  }

  // ----- the encoder

  function LengthOps(tables: Tables, trees: Trees, choice: LengthChoice): seq<Op>
    requires tables.Valid() && LengthAllowed(tables, trees, choice)
    ensures AllCodable(LengthOps(tables, trees, choice))
  {
    match choice
    case Short(_) => []
    case Long(index, extra) => [Symbol(trees.length, index)] + [Fixed(extra, tables.lengthBits[index])]
  }

  function OffsetOps(tables: Tables, trees: Trees, slot: nat, low: nat): seq<Op>
    requires tables.Valid() && OffsetAllowed(tables, trees, slot, low)
    ensures AllCodable(OffsetOps(tables, trees, slot, low))
  {
    var bits := tables.offsetBits[slot];
    if UsesAligned(tables, trees, slot) then
      EighthFits(low, bits);
      [Fixed(low / 8, bits - 3)] + [Symbol(trees.aligned.value, low % 8)]
    else [Fixed(low, bits)]
  }

  lemma EighthFits(low: nat, bits: nat)
    requires bits >= 3 && low < Pow2(bits)
    ensures low / 8 < Pow2(bits - 3)
  {
    TwiceThePower(bits - 1);
    TwiceThePower(bits - 2);
    TwiceThePower(bits - 3);
  }

  function TokenOps(tables: Tables, s: Session, t: Token, size: nat): seq<Op>
    requires tables.Valid() && Allowed(tables, s, t, size)
    ensures AllCodable(TokenOps(tables, s, t, size))
  {
    match t
    case Literal(value) => [Symbol(s.trees.main, value)]
    case NewTrees(script) => [Symbol(s.trees.main, 720)] + ScriptOps(s.previous, script)
    case Match(slot, low, length) =>
      [Symbol(s.trees.main, SlotSymbol(slot, length))]
      + (LengthOps(tables, s.trees, length) + OffsetOps(tables, s.trees, slot, low))
  }

  function TokensOps(tables: Tables, s: Session, tokens: seq<Token>, size: nat): seq<Op>
    requires tables.Valid() && s.Valid(size) && Fills(tables, s, tokens, size)
    ensures AllCodable(TokensOps(tables, s, tokens, size))
    decreases |tokens|
  {
    if tokens == [] then []
    else TokenOps(tables, s, tokens[0], size) + TokensOps(tables, Apply(tables, s, tokens[0], size), tokens[1..], size)
  }

  const NO_LENGTHS: seq<nat> := Copies(0, ALL_SYMBOLS)

  /** A stream opens with its first trees. */
  predicate Encodable(tables: Tables, script: Script, tokens: seq<Token>, size: nat)
    requires tables.Valid()
  {
    size <= 0x4000_0000 && ScriptFits(NO_LENGTHS, script) && Fills(tables, Opening(script), tokens, size)
  }

  function Opening(script: Script): (s: Session)
    requires ScriptFits(NO_LENGTHS, script)
    ensures s.Valid(0)
  {
    Session(TreesOf(NewLengths(NO_LENGTHS, script)).value, NewLengths(NO_LENGTHS, script), History([], [0, 0, 0]))
  }

  function Ops(tables: Tables, script: Script, tokens: seq<Token>, size: nat): seq<Op>
    requires tables.Valid() && Encodable(tables, script, tokens, size)
    ensures AllCodable(Ops(tables, script, tokens, size))
  {
    ScriptOps(NO_LENGTHS, script) + TokensOps(tables, Opening(script), tokens, size)
  }

  // ----- round trips, part by part

  lemma {:induction false} PretreeRoundTrip(data: seq<byte>, at: nat, pretree: seq<nat>)
    requires forall i :: 0 <= i < |pretree| ==> pretree[i] < 16
    requires Follow(data, at, PretreeOps(pretree)).Some?
    ensures ReadPretree(data, at, |pretree|) == Some((Follow(data, at, PretreeOps(pretree)).value, pretree))
    decreases |pretree|
  {
    hide Taken, Follow;
    if pretree == [] {
      FollowNothing(data, at);
    } else {
      var init, last := pretree[..|pretree| - 1], Fixed(pretree[|pretree| - 1], 4);
      SmallPowers();
      FollowBoth(data, at, PretreeOps(init), [last]);
      PretreeRoundTrip(data, at, init);
      FollowOne(data, Follow(data, at, PretreeOps(init)).value, last);
      assert pretree == init + [pretree[|pretree| - 1]];
    }
  }

  lemma FollowNothing(data: seq<byte>, at: nat)
    ensures Follow(data, at, []) == Some(at)
  {
  }

  /** A symbol with a plain number behind it. */
  lemma PairRoundTrip(data: seq<byte>, at: nat, lengths: seq<nat>, symbol: nat, extra: nat, count: nat)
    requires Codable(Symbol(lengths, symbol)) && Codable(Fixed(extra, count))
    requires Follow(data, at, [Symbol(lengths, symbol)] + [Fixed(extra, count)]).Some?
    ensures var middle := at + lengths[symbol];
            && Huffman.Decode(lengths, data, at) == Some((symbol, middle))
            && Taken(data, middle, count) == Some(extra)
            && Follow(data, at, [Symbol(lengths, symbol)] + [Fixed(extra, count)]) == Some(middle + count)
  {
    hide Huffman.Decode, Huffman.Accepted, Taken, Follow, Pow2;
    FollowBoth(data, at, [Symbol(lengths, symbol)], [Fixed(extra, count)]);
    FollowOne(data, at, Symbol(lengths, symbol));
    FollowOne(data, at + lengths[symbol], Fixed(extra, count));
  }

  lemma ItemRoundTrip(data: seq<byte>, at: nat, pretree: seq<nat>, previous: seq<nat>, lengths: seq<nat>, item: Item)
    requires |lengths| < |previous| && ItemFits(pretree, item) && Huffman.Accepted(pretree)
    requires Follow(data, at, ItemOps(pretree, item)).Some?
    ensures ReadRun(data, at, pretree, previous, lengths)
         == Some((Follow(data, at, ItemOps(pretree, item)).value, ItemRun(previous, lengths, item)))
  {
    hide Huffman.Decode, Huffman.Accepted, Taken, Follow, Pow2;
    SmallPowers();
    match item {
      case Delta(delta) => FollowOne(data, at, Symbol(pretree, delta));
      case Again(extra) => PairRoundTrip(data, at, pretree, 16, extra, 2);
      case FewZeros(extra) => PairRoundTrip(data, at, pretree, 17, extra, 3);
      case ManyZeros(extra) => PairRoundTrip(data, at, pretree, 18, extra, 7);
    }
  }

  lemma {:induction false} ItemsRoundTrip(
      data: seq<byte>, at: nat, pretree: seq<nat>, previous: seq<nat>, lengths: seq<nat>, items: seq<Item>)
    requires |previous| == ALL_SYMBOLS && Covers(previous, lengths, pretree, items) && Huffman.Accepted(pretree)
    requires Follow(data, at, ItemsOps(previous, lengths, pretree, items)).Some?
    ensures ReadLengths(data, at, pretree, previous, lengths)
         == Some((Follow(data, at, ItemsOps(previous, lengths, pretree, items)).value,
                  LengthsOf(previous, lengths, pretree, items)))
    decreases |items|
  {
    hide ReadRun, Follow, ItemOps, Huffman.Accepted, ItemFits;
    if items == [] {
      FollowNothing(data, at);
    } else {
      var run := ItemRun(previous, lengths, items[0]);
      FollowBoth(data, at, ItemOps(pretree, items[0]), ItemsOps(previous, lengths + run, pretree, items[1..]));
      ItemRoundTrip(data, at, pretree, previous, lengths, items[0]);
      ItemsRoundTrip(data, Follow(data, at, ItemOps(pretree, items[0])).value, pretree, previous, lengths + run, items[1..]);
    }
  }

  lemma ScriptRoundTrip(data: seq<byte>, at: nat, previous: seq<nat>, script: Script)
    requires |previous| == ALL_SYMBOLS && ScriptFits(previous, script)
    requires Follow(data, at, ScriptOps(previous, script)).Some?
    ensures var lengths := NewLengths(previous, script);
            ReadTrees(data, at, previous)
            == Some((Follow(data, at, ScriptOps(previous, script)).value, TreesOf(lengths).value, lengths))
  {
    hide Taken, ReadPretree, ReadLengths, LengthsOf, TreesOf, Follow, Huffman.Accepted, Covers, PretreeOps, ItemsOps;
    SmallPowers();
    AcceptedIsShort(script.pretree);
    var keep := Fixed(if script.keep then 1 else 0, 1);
    var pretree, items := PretreeOps(script.pretree), ItemsOps(Before(previous, script), [], script.pretree, script.items);
    FollowBoth(data, at, [keep], pretree + items) by { PiecesCodable(pretree, items); }
    FollowOne(data, at, keep);
    FollowBoth(data, at + 1, pretree, items);
    PretreeRoundTrip(data, at + 1, script.pretree);
    ItemsRoundTrip(data, Follow(data, at + 1, pretree).value, script.pretree, Before(previous, script), [], script.items);
  }

  lemma PiecesCodable(first: seq<Op>, second: seq<Op>)
    requires AllCodable(first) && AllCodable(second)
    ensures AllCodable(first + second)
  {
  }

  lemma AcceptedIsShort(lengths: seq<nat>)
    requires Huffman.Accepted(lengths)
    ensures forall i :: 0 <= i < |lengths| ==> lengths[i] < 16
  {
  }

  lemma LengthRoundTrip(data: seq<byte>, at: nat, tables: Tables, trees: Trees, choice: LengthChoice)
    requires tables.Valid() && LengthAllowed(tables, trees, choice)
    requires Follow(data, at, LengthOps(tables, trees, choice)).Some?
    ensures ReadLength(data, at, tables, trees, if choice.Short? then choice.less else 7)
         == Some((Follow(data, at, LengthOps(tables, trees, choice)).value, LengthOf(tables, choice)))
  {
    hide Huffman.Decode, Taken, Follow, Pow2;
    match choice {
      case Short(_) => FollowNothing(data, at);
      case Long(index, extra) =>
        PairRoundTrip(data, at, trees.length, index, extra, tables.lengthBits[index]);
    }
  }

  lemma OffsetRoundTrip(data: seq<byte>, at: nat, tables: Tables, trees: Trees, slot: nat, low: nat)
    requires tables.Valid() && OffsetAllowed(tables, trees, slot, low)
    requires Follow(data, at, OffsetOps(tables, trees, slot, low)).Some?
    ensures ReadOffset(data, at, tables, trees, slot)
         == Some((Follow(data, at, OffsetOps(tables, trees, slot, low)).value, ValueOf(tables, slot, low)))
  {
    hide Huffman.Decode, Taken, Follow, Pow2, OffsetBase;
    var bits := tables.offsetBits[slot];
    if UsesAligned(tables, trees, slot) {
      EighthFits(low, bits);
      var first, second := Fixed(low / 8, bits - 3), Symbol(trees.aligned.value, low % 8);
      FollowBoth(data, at, [first], [second]);
      FollowOne(data, at, first);
      FollowOne(data, at + (bits - 3), second);
    } else {
      FollowOne(data, at, Fixed(low, bits));
    }
  }

  lemma SymbolParts(slot: nat, short: nat)
    requires short < 8
    ensures (slot * 8 + short) / 8 == slot && (slot * 8 + short) % 8 == short
  {
  }

  lemma MatchRoundTrip(data: seq<byte>, at: nat, tables: Tables, s: Session, t: Token, size: nat)
    requires tables.Valid() && t.Match? && Allowed(tables, s, t, size)
    requires Follow(data, at, LengthOps(tables, s.trees, t.length) + OffsetOps(tables, s.trees, t.slot, t.low)).Some?
    ensures ReadMatch(data, at, tables, s.trees, SlotSymbol(t.slot, t.length) - 256, size, s.history)
         == Some((Follow(data, at, LengthOps(tables, s.trees, t.length) + OffsetOps(tables, s.trees, t.slot, t.low)).value,
                  Apply(tables, s, t, size).history))
  {
    hide ReadLength, ReadOffset, Follow, LengthOps, OffsetOps, Copied, Copy, Remembered, Pow2, InTree, ValueOf, LengthOf, OffsetAllowed;
    SymbolParts(t.slot, if t.length.Short? then t.length.less else 7);
    SlotInRange(tables, s.trees, t.slot, t.low);
    CopiedIs(s.history, ValueOf(tables, t.slot, t.low), LengthOf(tables, t.length), size);
    var length, offset := LengthOps(tables, s.trees, t.length), OffsetOps(tables, s.trees, t.slot, t.low);
    FollowBoth(data, at, length, offset);
    LengthRoundTrip(data, at, tables, s.trees, t.length);
    OffsetRoundTrip(data, Follow(data, at, length).value, tables, s.trees, t.slot, t.low);
  }

  lemma SlotInRange(tables: Tables, trees: Trees, slot: nat, low: nat)
    requires tables.Valid() && OffsetAllowed(tables, trees, slot, low)
    ensures slot < OFFSET_SLOTS
  {
  }

  lemma TokenRoundTrip(data: seq<byte>, at: nat, tables: Tables, s: Session, t: Token, size: nat)
    requires tables.Valid() && Allowed(tables, s, t, size)
    requires Follow(data, at, TokenOps(tables, s, t, size)).Some?
    ensures DecodeTurn(data, at, tables, size, s)
         == Some((Follow(data, at, TokenOps(tables, s, t, size)).value, Apply(tables, s, t, size)))
  {
    hide Huffman.Decode, Huffman.Accepted, ReadTrees, ReadMatch, Follow, ScriptOps, LengthOps, OffsetOps, NewLengths, TreesOf, ScriptFits;
    match t {
      case Literal(value) => FollowOne(data, at, Symbol(s.trees.main, value));
      case NewTrees(script) =>
        var first := Symbol(s.trees.main, 720);
        FollowBoth(data, at, [first], ScriptOps(s.previous, script));
        FollowOne(data, at, first);
        ScriptRoundTrip(data, at + s.trees.main[720], s.previous, script);
      case Match(slot, low, length) =>
        var first := Symbol(s.trees.main, SlotSymbol(slot, length));
        var rest := LengthOps(tables, s.trees, length) + OffsetOps(tables, s.trees, slot, low);
        FollowBoth(data, at, [first], rest);
        FollowOne(data, at, first);
        MatchRoundTrip(data, at + s.trees.main[first.symbol], tables, s, t, size);
    }
  }

  lemma {:induction false} TokensRoundTrip(data: seq<byte>, at: nat, tables: Tables, s: Session, tokens: seq<Token>, size: nat)
    requires tables.Valid() && s.Valid(size) && Fills(tables, s, tokens, size)
    requires Follow(data, at, TokensOps(tables, s, tokens, size)).Some?
    ensures DecodeTurns(data, at, tables, size, s)
         == Some((Follow(data, at, TokensOps(tables, s, tokens, size)).value, Expand(tables, s, tokens, size)))
    decreases |tokens|
  {
    hide DecodeTurn, Follow, TokenOps, Apply;
    if tokens == [] {
      FollowNothing(data, at);
    } else {
      var t := tokens[0];
      var next := Apply(tables, s, t, size);
      FollowBoth(data, at, TokenOps(tables, s, t, size), TokensOps(tables, next, tokens[1..], size));
      TokenRoundTrip(data, at, tables, s, t, size);
      TurnMovesOn(data, at, tables, size, s);
      TokensRoundTrip(data, Follow(data, at, TokenOps(tables, s, t, size)).value, tables, next, tokens[1..], size);
    }
  }

  /** Whatever data holds a stream's codes decompresses to its tokens' meaning, and no further bit is used. */
  lemma LzxRoundTrip(data: seq<byte>, tables: Tables, script: Script, tokens: seq<Token>, size: nat)
    requires tables.Valid() && Encodable(tables, script, tokens, size)
    requires Follow(data, 0, Ops(tables, script, tokens, size)).Some?
    ensures Decompress(data, size, tables)
         == Some((Follow(data, 0, Ops(tables, script, tokens, size)).value, Expand(tables, Opening(script), tokens, size)))
  {
    hide ReadTrees, DecodeTurns, Follow, ScriptOps, TokensOps, Expand, NewLengths, TreesOf, ScriptFits, Fills;
    FollowBoth(data, 0, ScriptOps(NO_LENGTHS, script), TokensOps(tables, Opening(script), tokens, size));
    ScriptRoundTrip(data, 0, NO_LENGTHS, script);
    TokensRoundTrip(data, Follow(data, 0, ScriptOps(NO_LENGTHS, script)).value, tables, Opening(script), tokens, size);
  }

  // ----- every token list has a stream

  function OpBits(op: Op): (r: seq<bit>)
    requires Codable(op)
    ensures |r| == Width(op)
  {
    match op
    case Fixed(value, count) => BitsOf(value, count)
    case Symbol(lengths, symbol) => BitsOf(Huffman.Code(lengths, symbol), lengths[symbol])
  }

  function OpsBits(ops: seq<Op>): seq<bit>
    requires AllCodable(ops)
  {
    if ops == [] then [] else OpBits(ops[0]) + OpsBits(ops[1..])
  }

  /** The bits of `bits` stand at `at`. */
  predicate Holds(data: seq<byte>, at: nat, bits: seq<bit>) {
    at + |bits| <= 8 * |data| && forall i :: 0 <= i < |bits| ==> BitAt(data, at + i) == bits[i]
  }

  lemma HoldsBoth(data: seq<byte>, at: nat, first: seq<bit>, second: seq<bit>)
    requires Holds(data, at, first + second)
    ensures Holds(data, at, first) && Holds(data, at + |first|, second)
  {
    hide BitAt;
    forall i | 0 <= i < |first|
      ensures BitAt(data, at + i) == first[i]
    {
      assert (first + second)[i] == first[i];
    }
    forall i | 0 <= i < |second|
      ensures BitAt(data, at + |first| + i) == second[i]
    {
      assert (first + second)[|first| + i] == second[i];
      assert at + (|first| + i) == at + |first| + i;
    }
  }

  lemma {:induction false} HeldBitsSpell(data: seq<byte>, at: nat, bits: seq<bit>)
    requires Holds(data, at, bits)
    ensures BitsAt(data, at, |bits|) == Spell(bits)
    decreases |bits|
  {
    hide BitAt;
    if bits != [] {
      var init := bits[..|bits| - 1];
      assert forall i :: 0 <= i < |init| ==> init[i] == bits[i];
      HeldBitsSpell(data, at, init);
      assert BitAt(data, at + (|bits| - 1)) == bits[|bits| - 1];
      assert at + |bits| - 1 == at + (|bits| - 1);
    }
  }

  lemma HeldOpIsRead(data: seq<byte>, at: nat, op: Op)
    requires Codable(op) && Holds(data, at, OpBits(op))
    ensures ReadOp(data, at, op) == Some(at + Width(op))
  {
    hide Pow2, Huffman.Decode, BitAt, BitsAt, BitsOf, Spell, Huffman.Accepted;
    HeldBitsSpell(data, at, OpBits(op));
    match op {
      case Fixed(value, count) =>
        SpellOfBits(value, count);
        SmallPowers();
      case Symbol(lengths, symbol) =>
        AcceptedIsShort(lengths);
        Huffman.CodeFits(lengths, symbol);
        SpellOfBits(Huffman.Code(lengths, symbol), lengths[symbol]);
        Huffman.SpelledIsDecoded(lengths, data, at, symbol);
    }
  }

  lemma {:induction false} HeldOpsAreRead(data: seq<byte>, at: nat, ops: seq<Op>)
    requires AllCodable(ops) && Holds(data, at, OpsBits(ops))
    ensures Follow(data, at, ops) == Some(at + |OpsBits(ops)|)
    decreases |ops|
  {
    hide ReadOp, Holds, OpBits;
    if ops != [] {
      var bits := OpBits(ops[0]);
      HoldsBoth(data, at, bits, OpsBits(ops[1..]));
      HeldOpIsRead(data, at, ops[0]);
      HeldOpsAreRead(data, at + |bits|, ops[1..]);
    }
  }

  function Zeros(count: nat): (r: seq<bit>)
    ensures |r| == count
  {
    seq(count, _ => 0)
  }

  /** Eight bits to a byte, the last one filled up with zeros. */
  function Pack(bits: seq<bit>): (r: seq<byte>)
    ensures |bits| <= 8 * |r|
    decreases |bits|
  {
    if bits == [] then []
    else if |bits| < 8 then [Spell(bits + Zeros(8 - |bits|)) % 256]
    else [Spell(bits[..8]) % 256] + Pack(bits[8..])
  }

  lemma {:induction false} BitOfBits(value: nat, count: nat, index: nat)
    requires index < count
    ensures BitsOf(value, count)[index] == HighBits(value, count - 1 - index) % 2
    decreases count
  {
    if index < count - 1 {
      BitOfBits(value / 2, count - 1, index);
    }
  }

  lemma BitOfPackedByte(bits: seq<bit>, index: nat)
    requires |bits| == 8 && index < 8
    ensures Spell(bits) < 256 && HighBits(Spell(bits), 7 - index) % 2 == bits[index]
  {
    hide Spell, HighBits, BitsOf;
    SpellBound(bits);
    SmallPowers();
    BitsOfSpell(bits);
    BitOfBits(Spell(bits), 8, index);
  }

  lemma {:induction false} PackedBit(bits: seq<bit>, at: nat)
    requires at < |bits|
    ensures BitAt(Pack(bits), at) == bits[at]
    decreases |bits|
  {
    hide Spell, HighBits;
    if |bits| < 8 {
      BitOfPackedByte(bits + Zeros(8 - |bits|), at);
    } else if at < 8 {
      BitOfPackedByte(bits[..8], at);
    } else {
      PackedBit(bits[8..], at - 8);
      NextByte(Pack(bits), at);
      assert Pack(bits)[1..] == Pack(bits[8..]);
    }
  }

  lemma NextByte(data: seq<byte>, at: nat)
    requires data != [] && at >= 8
    ensures BitAt(data, at) == BitAt(data[1..], at - 8)
  {
    assert (at - 8) / 8 == at / 8 - 1 && (at - 8) % 8 == at % 8;
  }

  lemma PackHolds(bits: seq<bit>)
    ensures Holds(Pack(bits), 0, bits)
  {
    hide BitAt, Pack;
    forall i | 0 <= i < |bits|
      ensures BitAt(Pack(bits), 0 + i) == bits[i]
    {
      PackedBit(bits, i);
    }
    assert |bits| <= 8 * |Pack(bits)|;
  }

  function Compress(tables: Tables, script: Script, tokens: seq<Token>, size: nat): seq<byte>
    requires tables.Valid() && Encodable(tables, script, tokens, size)
  {
    Pack(OpsBits(Ops(tables, script, tokens, size)))
  }

  /** Every token list that fills its output has a stream, which decompresses to the tokens' meaning. */
  lemma CompressRoundTrip(tables: Tables, script: Script, tokens: seq<Token>, size: nat)
    requires tables.Valid() && Encodable(tables, script, tokens, size)
    ensures var result := Decompress(Compress(tables, script, tokens, size), size, tables);
            result.Some? && result.value.1 == Expand(tables, Opening(script), tokens, size)
  {
    hide Decompress, Follow, Ops, Expand, Encodable, Holds, Pack, OpsBits, Opening;
    var ops := Ops(tables, script, tokens, size);
    var data := Compress(tables, script, tokens, size);
    PackHolds(OpsBits(ops));
    HeldOpsAreRead(data, 0, ops);
    LzxRoundTrip(data, tables, script, tokens, size);
  }
}
