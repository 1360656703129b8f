/**
  * LZX streams: code lengths sent as differences, three Huffman trees that can change on the way,
  * and matches with recent or coded offsets. The decoder, an encoder, and what the tokens mean.
  */
module Lzx {
  import opened Wrappers
  import opened Bytes
  import opened Lz
  import opened LzxBits
  import Huffman

  const MAIN_SYMBOLS := 721
  const LENGTH_SYMBOLS := 28
  const ALIGNED_SYMBOLS := 8
  const ALL_SYMBOLS := 757
  const PRETREE_SYMBOLS := 19
  const PRETREE_BITS := 4
  const NEW_TABLES := 720
  const LITERALS := 256
  const LONG_MATCH := 7
  const MIN_MATCH := 2
  const OFFSET_SLOTS := 58
  const REPEATED_OFFSETS := 3
  const ALIGNED_BITS := 3
  const DEFAULT_ALIGNED_LENGTH := 3
  const REPEAT_LENGTH := 16
  const SHORT_ZEROS := 17
  const LONG_ZEROS := 18

  /** The stub's tables. Entries past 24 bits cannot be read in one go and do not occur. */
  datatype Tables = Tables(lengthBase: seq<nat>, lengthBits: seq<nat>, offsetBits: seq<nat>) {
    predicate Valid() {
      && |lengthBase| == LENGTH_SYMBOLS && |lengthBits| == LENGTH_SYMBOLS && |offsetBits| == OFFSET_SLOTS
      && (forall i :: 0 <= i < LENGTH_SYMBOLS ==> lengthBits[i] <= WINDOW_BITS)
      && (forall i :: 0 <= i < OFFSET_SLOTS ==> offsetBits[i] <= WINDOW_BITS)
    }
  }

  /** Each slot starts where the one before it ends. */
  function OffsetBase(bits: seq<nat>, slot: nat): nat
    requires slot <= |bits|
  {
    if slot == 0 then 0 else OffsetBase(bits, slot - 1) + Pow2(bits[slot - 1])
  }

  /** Code lengths of the three trees; without its own lengths the aligned tree is not used. */
  datatype Trees = Trees(main: seq<nat>, length: seq<nat>, aligned: Option<seq<nat>>)

  // ----- reading code lengths

  function ReadPretree(data: seq<byte>, at: nat, count: nat): Option<(nat, seq<nat>)> {
    if count == 0 then Some((at, []))
    else
      var (at, before) :- ReadPretree(data, at, count - 1);
      var length :- Taken(data, at, PRETREE_BITS);
      Some((at + PRETREE_BITS, before + [length]))
  }

  function Copies(value: nat, count: nat): (r: seq<nat>)
    ensures |r| == count
  {
    seq(count, _ => value)
  }

  function Last(lengths: seq<nat>): nat {
    if lengths == [] then 0 else lengths[|lengths| - 1]
  }

  /** One code of the pretree: a run, or a difference to the length the symbol had before. */
  function ReadRun(data: seq<byte>, at: nat, pretree: seq<nat>, previous: seq<nat>, lengths: seq<nat>): Option<(nat, seq<nat>)>
    requires |lengths| < |previous|
  {
    var (code, at) :- Huffman.Decode(pretree, data, at);
    if code == REPEAT_LENGTH then
      var extra :- Taken(data, at, 2);
      Some((at + 2, Copies(Last(lengths), 3 + extra)))
    else if code == SHORT_ZEROS then
      var extra :- Taken(data, at, 3);
      Some((at + 3, Copies(0, 3 + extra)))
    else if code == LONG_ZEROS then
      var extra :- Taken(data, at, 7);
      Some((at + 7, Copies(0, 11 + extra)))
    else Some((at, [(previous[|lengths|] + code) % 16]))
  }

  function ReadLengths(data: seq<byte>, at: nat, pretree: seq<nat>, previous: seq<nat>, lengths: seq<nat>): Option<(nat, seq<nat>)>
    requires |previous| == ALL_SYMBOLS
    decreases ALL_SYMBOLS - |lengths|
  {
    if |lengths| >= ALL_SYMBOLS then Some((at, lengths[..ALL_SYMBOLS]))
    else
      var (at, run) :- ReadRun(data, at, pretree, previous, lengths);
      if run == [] then None else ReadLengths(data, at, pretree, previous, lengths + run)
  }

  function TreesOf(lengths: seq<nat>): Option<Trees>
    requires |lengths| == ALL_SYMBOLS
  {
    var main, length := lengths[..MAIN_SYMBOLS], lengths[MAIN_SYMBOLS..MAIN_SYMBOLS + LENGTH_SYMBOLS];
    var aligned := lengths[MAIN_SYMBOLS + LENGTH_SYMBOLS..];
    var usesAligned := aligned != Copies(DEFAULT_ALIGNED_LENGTH, ALIGNED_SYMBOLS);
    if !Huffman.Accepted(main) || !Huffman.Accepted(length) || (usesAligned && !Huffman.Accepted(aligned)) then None
    else Some(Trees(main, length, if usesAligned then Some(aligned) else None))
  }

  function ReadTrees(data: seq<byte>, at: nat, previous: seq<nat>): (r: Option<(nat, Trees, seq<nat>)>)
    requires |previous| == ALL_SYMBOLS
    ensures r.Some? ==> |r.value.2| == ALL_SYMBOLS
  {
    var keep :- Taken(data, at, 1);
    var (at, pretree) :- ReadPretree(data, at + 1, PRETREE_SYMBOLS);
    if !Huffman.Accepted(pretree) then None
    else
      var before := if keep == 0 then Copies(0, ALL_SYMBOLS) else previous;
      LengthsRead(data, at, pretree, before, []);
      var (at, lengths) :- ReadLengths(data, at, pretree, before, []);
      var trees :- TreesOf(lengths);
      Some((at, trees, lengths))
  }

  lemma LengthsRead(data: seq<byte>, at: nat, pretree: seq<nat>, previous: seq<nat>, lengths: seq<nat>)
    requires |previous| == ALL_SYMBOLS
    ensures var r := ReadLengths(data, at, pretree, previous, lengths); r.Some? ==> |r.value.1| == ALL_SYMBOLS
    decreases ALL_SYMBOLS - |lengths|
  {
    if |lengths| < ALL_SYMBOLS {
      var run := ReadRun(data, at, pretree, previous, lengths);
      if run.Some? && run.value.1 != [] {
        LengthsRead(data, run.value.0, pretree, previous, lengths + run.value.1);
      }
    }
  }

  // ----- matches

  datatype History = History(output: seq<byte>, repeats: seq<nat>) {
    predicate Valid() {
      |repeats| == REPEATED_OFFSETS
    }
  }

  const START := History([], [0, 0, 0])

  /** Values below three name a recent offset, which moves to the front by a swap. */
  function Recall(repeats: seq<nat>, value: nat): (r: seq<nat>)
    requires |repeats| == REPEATED_OFFSETS
    ensures |r| == REPEATED_OFFSETS
  {
    if value < REPEATED_OFFSETS then repeats[value := repeats[0]][0 := repeats[value]]
    else [value - REPEATED_OFFSETS, repeats[0], repeats[1]]
  }

  function Copied(h: History, value: nat, length: nat, size: nat): Option<History>
    requires h.Valid() && |h.output| <= size
  {
    var repeats := Recall(h.repeats, value);
    if repeats[0] + 1 > |h.output| then None
    else
      var count := if length <= size - |h.output| then length else size - |h.output|;
      Some(History(Extend(h.output, repeats[0] + 1, count), repeats))
  }

  function ReadLength(data: seq<byte>, at: nat, tables: Tables, trees: Trees, short: nat): Option<(nat, nat)>
    requires tables.Valid()
  {
    if short != LONG_MATCH then Some((at, short + MIN_MATCH))
    else
      var (index, at) :- Huffman.Decode(trees.length, data, at);
      if index >= LENGTH_SYMBOLS then None
      else
        var extra :- Taken(data, at, tables.lengthBits[index]);
        Some((at + tables.lengthBits[index], short + MIN_MATCH + tables.lengthBase[index] + extra))
  }

  function ReadOffset(data: seq<byte>, at: nat, tables: Tables, trees: Trees, slot: nat): Option<(nat, nat)>
    requires tables.Valid() && slot < OFFSET_SLOTS
  {
    var bits, base := tables.offsetBits[slot], OffsetBase(tables.offsetBits, slot);
    if trees.aligned.Some? && bits >= ALIGNED_BITS then
      var high :- Taken(data, at, bits - ALIGNED_BITS);
      var (low, at) :- Huffman.Decode(trees.aligned.value, data, at + (bits - ALIGNED_BITS));
      Some((at, base + high * 8 + low))
    else
      var low :- Taken(data, at, bits);
      Some((at + bits, base + low))
  }

  function ReadMatch(data: seq<byte>, at: nat, tables: Tables, trees: Trees, code: nat, size: nat, h: History): Option<(nat, History)>
    requires tables.Valid() && h.Valid() && |h.output| <= size
  {
    if code / 8 >= OFFSET_SLOTS then None
    else
      var (at, length) :- ReadLength(data, at, tables, trees, code % 8);
      var (at, value) :- ReadOffset(data, at, tables, trees, code / 8);
      var h :- Copied(h, value, length, size);
      Some((at, h))
  }

  // ----- the decoding loop, on values

  datatype Session = Session(trees: Trees, previous: seq<nat>, history: History) {
    predicate Valid(size: nat) {
      |previous| == ALL_SYMBOLS && history.Valid() && |history.output| <= size
    }
  }

  function DecodeTurn(data: seq<byte>, at: nat, tables: Tables, size: nat, s: Session): Option<(nat, Session)>
    requires tables.Valid() && s.Valid(size) && |s.history.output| < size
  {
    var (symbol, at) :- Huffman.Decode(s.trees.main, data, at);
    if symbol < LITERALS then Some((at, s.(history := s.history.(output := s.history.output + [symbol]))))
    else if symbol >= NEW_TABLES then
      var (at, trees, previous) :- ReadTrees(data, at, s.previous);
      Some((at, Session(trees, previous, s.history)))
    else
      var (at, h) :- ReadMatch(data, at, tables, s.trees, symbol - LITERALS, size, s.history);
      Some((at, s.(history := h)))
  }

  /** Every turn takes at least one bit, and looking ahead sets a limit to how many there are. */
  function DecodeTurns(data: seq<byte>, at: nat, tables: Tables, size: nat, s: Session): Option<(nat, seq<byte>)>
    requires tables.Valid() && s.Valid(size)
    decreases if at <= 8 * (|data| + 9) then 8 * (|data| + 9) - at else 0
  {
    if |s.history.output| == size then Some((at, s.history.output))
    else
      TurnMovesOn(data, at, tables, size, s);
      var (next, s) :- DecodeTurn(data, at, tables, size, s);
      DecodeTurns(data, next, tables, size, s)
  }

  lemma SymbolMovesOn(lengths: seq<nat>, data: seq<byte>, at: nat)
    ensures Huffman.Decode(lengths, data, at).Some? ==> at < Huffman.Decode(lengths, data, at).value.1
    ensures Huffman.Decode(lengths, data, at).Some? ==> at < 8 * (|data| + 9)
  {
    hide Huffman.Decode;
    var r := Huffman.Decode(lengths, data, at);
    if r.Some? {
      Huffman.DecodeOnlySpelled(lengths, data, at);
    }
  }

  lemma RunMovesOn(data: seq<byte>, at: nat, pretree: seq<nat>, previous: seq<nat>, lengths: seq<nat>)
    requires |lengths| < |previous|
    ensures var r := ReadRun(data, at, pretree, previous, lengths); r.Some? ==> at <= r.value.0 && r.value.1 != []
  {
    hide Huffman.Decode, Taken;
    SymbolMovesOn(pretree, data, at);
  }

  lemma {:induction false} LengthsMoveOn(data: seq<byte>, at: nat, pretree: seq<nat>, previous: seq<nat>, lengths: seq<nat>)
    requires |previous| == ALL_SYMBOLS
    ensures var r := ReadLengths(data, at, pretree, previous, lengths); r.Some? ==> at <= r.value.0
    decreases ALL_SYMBOLS - |lengths|
  {
    hide ReadRun;
    if |lengths| < ALL_SYMBOLS {
      RunMovesOn(data, at, pretree, previous, lengths);
      var run := ReadRun(data, at, pretree, previous, lengths);
      if run.Some? {
        LengthsMoveOn(data, run.value.0, pretree, previous, lengths + run.value.1);
      }
    }
  }

  lemma {:induction false} PretreeMovesOn(data: seq<byte>, at: nat, count: nat)
    ensures var r := ReadPretree(data, at, count); r.Some? ==> r.value.0 == at + PRETREE_BITS * count
    ensures var r := ReadPretree(data, at, count); r.Some? ==> |r.value.1| == count
  {
    if count > 0 {
      PretreeMovesOn(data, at, count - 1);
    }
  }

  lemma TreesMoveOn(data: seq<byte>, at: nat, previous: seq<nat>)
    requires |previous| == ALL_SYMBOLS
    ensures var r := ReadTrees(data, at, previous); r.Some? ==> at <= r.value.0
  {
    hide Taken, ReadPretree, ReadLengths, TreesOf, Huffman.Accepted;
    PretreeMovesOn(data, at + 1, PRETREE_SYMBOLS);
    var pretree := ReadPretree(data, at + 1, PRETREE_SYMBOLS);
    if pretree.Some? {
      LengthsMoveOn(data, pretree.value.0, pretree.value.1, Copies(0, ALL_SYMBOLS), []);
      LengthsMoveOn(data, pretree.value.0, pretree.value.1, previous, []);
    }
  }

  lemma MatchMovesOn(data: seq<byte>, at: nat, tables: Tables, trees: Trees, code: nat, size: nat, h: History)
    requires tables.Valid() && h.Valid() && |h.output| <= size
    ensures var r := ReadMatch(data, at, tables, trees, code, size, h);
            r.Some? ==> at <= r.value.0 && r.value.1.Valid() && |r.value.1.output| <= size
  {
    hide Huffman.Decode, Taken, Recall, OffsetBase;
    if code / 8 < OFFSET_SLOTS {
      SymbolMovesOn(trees.length, data, at);
      var length := ReadLength(data, at, tables, trees, code % 8);
      if length.Some? && trees.aligned.Some? && tables.offsetBits[code / 8] >= ALIGNED_BITS {
        SymbolMovesOn(trees.aligned.value, data, length.value.0 + (tables.offsetBits[code / 8] - ALIGNED_BITS));
      }
    }
  }

  lemma TurnMovesOn(data: seq<byte>, at: nat, tables: Tables, size: nat, s: Session)
    requires tables.Valid() && s.Valid(size) && |s.history.output| < size
    ensures var r := DecodeTurn(data, at, tables, size, s);
            r.Some? ==> at < r.value.0 && at < 8 * (|data| + 9) && r.value.1.Valid(size)
  {
    hide Huffman.Decode, ReadTrees, ReadMatch;
    SymbolMovesOn(s.trees.main, data, at);
    var read := Huffman.Decode(s.trees.main, data, at);
    if read.Some? && read.value.0 >= NEW_TABLES {
      TreesMoveOn(data, read.value.1, s.previous);
      var r := ReadTrees(data, read.value.1, s.previous);
    } else if read.Some? && read.value.0 >= LITERALS {
      MatchMovesOn(data, read.value.1, tables, s.trees, read.value.0 - LITERALS, size, s.history);
    }
  }

  function Decompress(data: seq<byte>, size: nat, tables: Tables): Option<(nat, seq<byte>)>
    requires tables.Valid()
  {
    var (at, trees, previous) :- ReadTrees(data, 0, Copies(0, ALL_SYMBOLS));
    if size > MAX_UNPACKED then None else DecodeTurns(data, at, tables, size, Session(trees, previous, START))
  }
}
