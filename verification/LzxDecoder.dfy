/** The LZX decoder as the source runs it, on the in-place bit reader and the filled-in tables. */
module LzxDecoder {
  import opened Wrappers
  import opened Bytes
  import opened Lz
  import opened LzxBits
  import opened Lzx
  import opened Huffman

  /** The tables of a set of trees. */
  datatype TreeTables = TreeTables(main: Tree, length: Tree, aligned: Option<Tree>)

  ghost predicate Builds(tables: TreeTables, trees: Trees) {
    && TablesOf(tables.main, trees.main)
    && TablesOf(tables.length, trees.length)
    && tables.aligned.Some? == trees.aligned.Some?
    && (tables.aligned.Some? ==> TablesOf(tables.aligned.value, trees.aligned.value))
  }

  method Pretree(bits: Bits) returns (lengths: Option<seq<nat>>)
    requires bits.Valid()
    modifies bits
    ensures bits.Valid()
    ensures match ReadPretree(bits.data, old(bits.Position()), PRETREE_SYMBOLS)
            case None => lengths.None?
            case Some(spec) => lengths == Some(spec.1) && bits.Position() == spec.0
  {
    hide Taken;
    var read: seq<nat> := [];
    ghost var start := bits.Position();
    for count := 0 to PRETREE_SYMBOLS
      invariant bits.Valid() && |read| == count
      invariant ReadPretree(bits.data, start, count) == Some((bits.Position(), read))
    {
      ghost var at := bits.Position();
      var length := bits.Take(PRETREE_BITS);
      if length.None? {
        assert ReadPretree(bits.data, start, count + 1).None?;
        PretreeFails(bits.data, start, count + 1, PRETREE_SYMBOLS);
        return None;
      }
      read := read + [length.value];
    }
    return Some(read);
  }

  lemma {:induction false} PretreeFails(data: seq<byte>, at: nat, count: nat, more: nat)
    requires count <= more && ReadPretree(data, at, count).None?
    ensures ReadPretree(data, at, more).None?
    decreases more
  {
    if count < more {
      PretreeFails(data, at, count, more - 1);
    }
  }

  method Run(bits: Bits, pretree: Tree, ghost pretreeLengths: seq<nat>, previous: seq<nat>, lengths: seq<nat>)
    returns (run: Option<seq<nat>>)
    requires bits.Valid() && TablesOf(pretree, pretreeLengths) && |lengths| < |previous|
    modifies bits
    ensures bits.Valid()
    ensures match ReadRun(bits.data, old(bits.Position()), pretreeLengths, previous, lengths)
            case None => run.None?
            case Some(spec) => run == Some(spec.1) && bits.Position() == spec.0
  {
    hide Decode, Taken, Last, TablesOf;
    var code := DecodeSymbol(pretree, pretreeLengths, bits);
    if code.None? {
      return None;
    }
    if code.value == REPEAT_LENGTH {
      var extra := bits.Take(2);
      return if extra.None? then None else Some(Copies(Last(lengths), 3 + extra.value));
    }
    if code.value == SHORT_ZEROS {
      var extra := bits.Take(3);
      return if extra.None? then None else Some(Copies(0, 3 + extra.value));
    }
    if code.value == LONG_ZEROS {
      var extra := bits.Take(7);
      return if extra.None? then None else Some(Copies(0, 11 + extra.value));
    }
    return Some([(previous[|lengths|] + code.value) % 16]);
  }

  method Lengths(bits: Bits, pretree: Tree, ghost pretreeLengths: seq<nat>, previous: seq<nat>)
    returns (lengths: Option<seq<nat>>)
    requires bits.Valid() && TablesOf(pretree, pretreeLengths) && |previous| == ALL_SYMBOLS
    modifies bits
    ensures bits.Valid()
    ensures match ReadLengths(bits.data, old(bits.Position()), pretreeLengths, previous, [])
            case None => lengths.None?
            case Some(spec) => lengths == Some(spec.1) && bits.Position() == spec.0
  {
    hide ReadRun, TablesOf;
    var read: seq<nat> := [];
    ghost var whole := ReadLengths(bits.data, bits.Position(), pretreeLengths, previous, []);
    while |read| < ALL_SYMBOLS
      invariant bits.Valid()
      invariant ReadLengths(bits.data, bits.Position(), pretreeLengths, previous, read) == whole
      decreases ALL_SYMBOLS - |read|
    {
      RunMovesOn(bits.data, bits.Position(), pretreeLengths, previous, read);
      var run := Run(bits, pretree, pretreeLengths, previous, read);
      if run.None? {
        return None;
      }
      read := read + run.value;
    }
    return Some(read[..ALL_SYMBOLS]);
  }

  method Build(lengths: seq<nat>) returns (tables: Option<TreeTables>)
    requires |lengths| == ALL_SYMBOLS
    ensures match TreesOf(lengths)
            case None => tables.None?
            case Some(trees) => tables.Some? && Builds(tables.value, trees)
  {
    hide Accepted, TablesOf;
    var aligned := lengths[MAIN_SYMBOLS + LENGTH_SYMBOLS..];
    var mainTree := New(lengths[..MAIN_SYMBOLS]);
    if mainTree.None? {
      return None;
    }
    var lengthTree := New(lengths[MAIN_SYMBOLS..MAIN_SYMBOLS + LENGTH_SYMBOLS]);
    if lengthTree.None? {
      return None;
    }
    var alignedTree: Option<Tree> := None;
    if aligned != Copies(DEFAULT_ALIGNED_LENGTH, ALIGNED_SYMBOLS) {
      alignedTree := New(aligned);
      if alignedTree.None? {
        return None;
      }
    }
    return Some(TreeTables(mainTree.value, lengthTree.value, alignedTree));
  }

  /** The trees' tables and the code lengths to take the next differences from. */
  method NewTrees(bits: Bits, previous: seq<nat>) returns (result: Option<(TreeTables, seq<nat>)>)
    requires bits.Valid() && |previous| == ALL_SYMBOLS
    modifies bits
    ensures bits.Valid()
    ensures match ReadTrees(bits.data, old(bits.Position()), previous)
            case None => result.None?
            case Some(spec) => result.Some? && Builds(result.value.0, spec.1) && result.value.1 == spec.2
                               && bits.Position() == spec.0
  {
    hide Taken, ReadPretree, ReadLengths, TreesOf, Accepted, Builds, TablesOf;
    var keep := bits.Take(1);
    if keep.None? {
      return None;
    }
    var before := if keep.value == 0 then Copies(0, ALL_SYMBOLS) else previous;
    var pretreeLengths := Pretree(bits);
    if pretreeLengths.None? {
      return None;
    }
    var pretree := New(pretreeLengths.value);
    if pretree.None? {
      return None;
    }
    LengthsRead(bits.data, bits.Position(), pretreeLengths.value, before, []);
    var lengths := Lengths(bits, pretree.value, pretreeLengths.value, before);
    if lengths.None? {
      return None;
    }
    var tables := Build(lengths.value);
    return if tables.None? then None else Some((tables.value, lengths.value));
  }

  method MatchLength(bits: Bits, tables: Tables, tree: Tree, ghost trees: Trees, short: nat) returns (length: Option<nat>)
    requires bits.Valid() && tables.Valid() && TablesOf(tree, trees.length)
    modifies bits
    ensures bits.Valid()
    ensures match ReadLength(bits.data, old(bits.Position()), tables, trees, short)
            case None => length.None?
            case Some(spec) => length == Some(spec.1) && bits.Position() == spec.0
  {
    hide Decode, Taken, TablesOf;
    if short != LONG_MATCH {
      return Some(short + MIN_MATCH);
    }
    var index := DecodeSymbol(tree, trees.length, bits);
    if index.None? || index.value >= LENGTH_SYMBOLS {
      return None;
    }
    var extra := bits.Take(tables.lengthBits[index.value]);
    return if extra.None? then None else Some(short + MIN_MATCH + tables.lengthBase[index.value] + extra.value);
  }

  method MatchOffset(
      bits: Bits, tables: Tables, bases: seq<nat>, aligned: Option<Tree>, ghost trees: Trees, slot: nat)
    returns (value: Option<nat>)
    requires bits.Valid() && tables.Valid() && slot < OFFSET_SLOTS
    requires |bases| == OFFSET_SLOTS && bases[slot] == OffsetBase(tables.offsetBits, slot)
    requires aligned.Some? == trees.aligned.Some? && (aligned.Some? ==> TablesOf(aligned.value, trees.aligned.value))
    modifies bits
    ensures bits.Valid()
    ensures match ReadOffset(bits.data, old(bits.Position()), tables, trees, slot)
            case None => value.None?
            case Some(spec) => value == Some(spec.1) && bits.Position() == spec.0
  {
    hide Decode, Taken, TablesOf, OffsetBase;
    var count := tables.offsetBits[slot];
    if aligned.Some? && count >= ALIGNED_BITS {
      var high := bits.Take(count - ALIGNED_BITS);
      if high.None? {
        return None;
      }
      var low := DecodeSymbol(aligned.value, trees.aligned.value, bits);
      return if low.None? then None else Some(bases[slot] + high.value * 8 + low.value);
    }
    var low := bits.Take(count);
    return if low.None? then None else Some(bases[slot] + low.value);
  }

  method Match(
      bits: Bits, tables: Tables, bases: seq<nat>, trees: TreeTables, ghost spec: Trees, code: nat, size: nat, h: History)
    returns (next: Option<History>)
    requires bits.Valid() && tables.Valid() && h.Valid() && |h.output| <= size && Builds(trees, spec)
    requires |bases| == OFFSET_SLOTS && forall s: nat :: s < OFFSET_SLOTS ==> bases[s] == OffsetBase(tables.offsetBits, s)
    modifies bits
    ensures bits.Valid()
    ensures match ReadMatch(bits.data, old(bits.Position()), tables, spec, code, size, h)
            case None => next.None?
            case Some(r) => next == Some(r.1) && bits.Position() == r.0
  {
    hide ReadLength, ReadOffset, TablesOf, OffsetBase;
    var slot := code / 8;
    if slot >= OFFSET_SLOTS {
      return None;
    }
    var length := MatchLength(bits, tables, trees.length, spec, code % 8);
    if length.None? {
      return None;
    }
    var value := MatchOffset(bits, tables, bases, trees.aligned, spec, slot);
    if value.None? {
      return None;
    }
    var repeats := Recall(h.repeats, value.value);
    if repeats[0] + 1 > |h.output| {
      return None;
    }
    var count := if length.value <= size - |h.output| then length.value else size - |h.output|;
    var output := Push(h.output, repeats[0] + 1, count);
    return Some(History(output, repeats));
  }

  method OffsetBases(bits: seq<nat>) returns (bases: seq<nat>)
    ensures |bases| == |bits| && forall s: nat :: s < |bits| ==> bases[s] == OffsetBase(bits, s)
  {
    bases := [];
    var base: nat := 0;
    for slot := 0 to |bits|
      invariant |bases| == slot && base == OffsetBase(bits, slot)
      invariant forall s: nat :: s < slot ==> bases[s] == OffsetBase(bits, s)
    {
      bases := bases + [base];
      base := base + Pow2(bits[slot]);
    }
  }

  /** One symbol of the main tree: a literal, new trees or a match. */
  method Turn(
      bits: Bits, tables: Tables, bases: seq<nat>, trees: TreeTables, ghost spec: Trees, previous: seq<nat>, size: nat, h: History)
    returns (next: Option<(TreeTables, seq<nat>, History)>, ghost nextSpec: Trees)
    requires bits.Valid() && tables.Valid() && Builds(trees, spec)
    requires Session(spec, previous, h).Valid(size) && |h.output| < size
    requires |bases| == OFFSET_SLOTS && forall s: nat :: s < OFFSET_SLOTS ==> bases[s] == OffsetBase(tables.offsetBits, s)
    modifies bits
    ensures bits.Valid()
    ensures match DecodeTurn(bits.data, old(bits.Position()), tables, size, Session(spec, previous, h))
            case None => next.None?
            case Some(r) => next.Some? && Builds(next.value.0, nextSpec) && bits.Position() == r.0
                            && r.1 == Session(nextSpec, next.value.1, next.value.2)
  {
    hide Decode, ReadTrees, ReadMatch, OffsetBase, TablesOf;
    nextSpec := spec;
    var symbol := DecodeSymbol(trees.main, spec.main, bits);
    if symbol.None? {
      return None, nextSpec;
    }
    if symbol.value < LITERALS {
      return Some((trees, previous, h.(output := h.output + [symbol.value]))), nextSpec;
    }
    if symbol.value >= NEW_TABLES {
      ghost var read := ReadTrees(bits.data, bits.Position(), previous);
      var changed := NewTrees(bits, previous);
      if changed.None? {
        return None, nextSpec;
      }
      return Some((changed.value.0, changed.value.1, h)), read.value.1;
    }
    var copied := Match(bits, tables, bases, trees, spec, symbol.value - LITERALS, size, h);
    return if copied.None? then None else Some((trees, previous, copied.value)), nextSpec;
  }

  method Decompress(source: seq<byte>, size: nat, tables: Tables) returns (output: Option<seq<byte>>)
    requires tables.Valid()
    ensures match Lzx.Decompress(source, size, tables)
            case None => output.None?
            case Some(spec) => output == Some(spec.1)
  {
    hide Decode, ReadTrees, ReadMatch, Builds, OffsetBase;
    var bases := OffsetBases(tables.offsetBits);
    var bits := new Bits(source);
    var first := NewTrees(bits, Copies(0, ALL_SYMBOLS));
    if first.None? || size > MAX_UNPACKED {
      return None;
    }

    var trees, previous, h := first.value.0, first.value.1, START;
    ghost var spec := ReadTrees(source, 0, Copies(0, ALL_SYMBOLS)).value.1;
    ghost var whole := DecodeTurns(source, bits.Position(), tables, size, Session(spec, previous, h));
    while |h.output| < size
      invariant bits.Valid() && bits.data == source && fresh(bits)
      invariant Builds(trees, spec) && Session(spec, previous, h).Valid(size)
      invariant DecodeTurns(source, bits.Position(), tables, size, Session(spec, previous, h)) == whole
      decreases if bits.Position() <= 8 * (|source| + 9) then 8 * (|source| + 9) - bits.Position() else 0
    {
      TurnMovesOn(source, bits.Position(), tables, size, Session(spec, previous, h));
      var turn;
      turn, spec := Turn(bits, tables, bases, trees, spec, previous, size, h);
      if turn.None? {
        return None;
      }
      trees, previous, h := turn.value.0, turn.value.1, turn.value.2;
    }
    return Some(h.output);
  }
}
