/**
  * A stream on which the LZMA decoder loses what its adaptive bits keep: the code below the range.
  *
  * Only equiprobable bits can lose it, and those come deep in a match. The stream decodes a literal
  * and two matches first, which makes the range odd where the third match's distance begins.
  */
module LzmaOddTop {
  import opened Wrappers
  import opened Bytes
  import opened RangeCoder
  import opened Lz
  import opened Lzma
  import opened LzmaRuns

  const PLAIN := Properties(0, 0, 0)

  /** In a turn that decodes a match: the machine when the distance's slot is known, and the slot. */
  function AtSlot(data: seq<byte>, props: Properties, p: Progress): Option<(Machine, nat)>
    requires props.Valid() && p.Valid()
  {
    PositionStateFits(props, p.history.output);
    var positionState := PositionState(props, p.history.output);
    var (m, kind) :- DecodeKind(data, p.machine, p.state, positionState);
    if !kind.MatchKind? then None
    else
      var (m, length) :- Length(data, m, false, positionState);
      Tree(data, m, Slots, (if length < LENGTH_STATES then length else LENGTH_STATES - 1) * 64, SLOT_BITS)
  }

  // ----- one bit at a time

  /** The slots that a match of two bytes one byte back goes through: it reads a zero at each. */
  predicate OnZeroPath(slot: Slot) {
    || slot == Slot(Choice(false), 0)
    || (slot.family == Low(false) && slot.index in {1, 2, 4})
    || (slot.family == Slots && slot.index in {1, 2, 4, 8, 16, 32})
  }

  ghost predicate Trained(table: Table, p: Probability) {
    forall slot :: OnZeroPath(slot) ==> ProbabilityOf(table, slot) == p
  }

  predicate KindKnown(table: Table, state: nat, p: Probability) {
    && ProbabilityOf(table, Slot(IsMatch, state * POSITION_STATES)) == p
    && ProbabilityOf(table, Slot(IsRepeat, state)) == PROBABILITY_START
  }

  predicate Yields(data: seq<byte>, c: Coder, p: Probability, next: Coder, bit: nat) {
    DecodeBit(data, c, p) == Some((next, bit))
  }

  function Taught(m: Machine, slot: Slot, next: Coder, bit: nat): Machine {
    Machine(next, m.table[slot := Learn(ProbabilityOf(m.table, slot), bit)], m.contexts)
  }

  lemma BitIs(data: seq<byte>, m: Machine, slot: Slot, p: Probability, next: Coder, bit: nat)
    requires InBounds(slot, m.contexts) && ProbabilityOf(m.table, slot) == p && Yields(data, m.coder, p, next, bit)
    ensures Bit(data, m, slot) == Some((Taught(m, slot, next, bit), bit))
    ensures forall other :: other != slot ==> ProbabilityOf(Taught(m, slot, next, bit).table, other) == ProbabilityOf(m.table, other)
    ensures ProbabilityOf(Taught(m, slot, next, bit).table, slot) == Learn(p, bit)
  {
  }

  lemma Teaches(m: Machine, slot: Slot, next: Coder, bit: nat)
    ensures Taught(m, slot, next, bit).coder == next && Taught(m, slot, next, bit).contexts == m.contexts
  {
  }

  /** One step down a tree. */
  lemma Descend(data: seq<byte>, m: Machine, family: Family, base: nat, node: nat, bits: nat, p: Probability, next: Coder, bit: nat)
    returns (r: Machine)
    requires bits > 0 && InBounds(Slot(family, base + node), m.contexts)
    requires ProbabilityOf(m.table, Slot(family, base + node)) == p && Yields(data, m.coder, p, next, bit)
    ensures r.coder == next && r.contexts == m.contexts
    ensures TreeFrom(data, m, family, base, node, bits) == TreeFrom(data, r, family, base, 2 * node + bit, bits - 1)
    ensures forall other :: other != Slot(family, base + node) ==> ProbabilityOf(r.table, other) == ProbabilityOf(m.table, other)
    ensures ProbabilityOf(r.table, Slot(family, base + node)) == Learn(p, bit)
  {
    hide TreeFrom, DecodeBit;
    BitIs(data, m, Slot(family, base + node), p, next, bit);
    r := Taught(m, Slot(family, base + node), next, bit);
    TreeUnfolds(data, m, family, base, node, bits);
  }

  lemma TreeUnfolds(data: seq<byte>, m: Machine, family: Family, base: nat, node: nat, bits: nat)
    requires bits > 0
    ensures var read := CheckedBit(data, m, Slot(family, base + node));
      TreeFrom(data, m, family, base, node, bits)
      == (if read.None? then None else TreeFrom(data, read.value.0, family, base, 2 * node + read.value.1, bits - 1))
  {
    hide CheckedBit;
  }

  lemma LeafReached(data: seq<byte>, m: Machine, family: Family, base: nat, node: nat)
    ensures TreeFrom(data, m, family, base, node, 0) == Some((m, node))
  {
  }

  /** Three steps down a tree. */
  lemma DescendThree(data: seq<byte>, m: Machine, family: Family, base: nat, node: nat, bits: nat, p: Probability, c: seq<Coder>,
                     b0: nat, b1: nat, b2: nat)
    returns (r: Machine)
    requires bits >= 3 && |c| == 4 && m.coder == c[0] && node > 0 && b0 < 2 && b1 < 2 && b2 < 2
    requires Yields(data, c[0], p, c[1], b0) && Yields(data, c[1], p, c[2], b1) && Yields(data, c[2], p, c[3], b2)
    requires base + 4 * node + 2 * b0 + b1 < Size(family, m.contexts)
    requires ProbabilityOf(m.table, Slot(family, base + node)) == p
    requires ProbabilityOf(m.table, Slot(family, base + 2 * node + b0)) == p
    requires ProbabilityOf(m.table, Slot(family, base + 4 * node + 2 * b0 + b1)) == p
    ensures r.coder == c[3] && r.contexts == m.contexts
    ensures TreeFrom(data, m, family, base, node, bits) == TreeFrom(data, r, family, base, 8 * node + 4 * b0 + 2 * b1 + b2, bits - 3)
    ensures ProbabilityOf(r.table, Slot(family, base + node)) == Learn(p, b0)
    ensures ProbabilityOf(r.table, Slot(family, base + 2 * node + b0)) == Learn(p, b1)
    ensures ProbabilityOf(r.table, Slot(family, base + 4 * node + 2 * b0 + b1)) == Learn(p, b2)
    ensures forall other: Slot ::
              other.family != family || other.index !in {base + node, base + 2 * node + b0, base + 4 * node + 2 * b0 + b1} ==>
              ProbabilityOf(r.table, other) == ProbabilityOf(m.table, other)
  {
    hide Yields, TreeFrom, ProbabilityOf, Learn, Size;
    var m1 := Descend(data, m, family, base, node, bits, p, c[1], b0);
    var m2 := Descend(data, m1, family, base, 2 * node + b0, bits - 1, p, c[2], b1);
    r := Descend(data, m2, family, base, 4 * node + 2 * b0 + b1, bits - 2, p, c[3], b2);
  }

  // ----- what a match goes through

  lemma ShortLength(data: seq<byte>, m: Machine, p: Probability, c: seq<Coder>) returns (r: Machine)
    requires Trained(m.table, p) && |c| == 5 && m.coder == c[0]
    requires forall i :: 0 <= i < 4 ==> Yields(data, c[i], p, c[i + 1], 0)
    ensures Length(data, m, false, 0) == Some((r, 0)) && r.coder == c[4] && r.contexts == m.contexts
    ensures forall slot :: OnZeroPath(slot) && slot.family != Slots ==> ProbabilityOf(r.table, slot) == Learn(p, 0)
    ensures forall slot :: !OnZeroPath(slot) || slot.family == Slots ==> ProbabilityOf(r.table, slot) == ProbabilityOf(m.table, slot)
  {
    hide Yields, Taught, TreeFrom, ProbabilityOf, Learn, Bit;
    SmallPowers();
    BitIs(data, m, Slot(Choice(false), 0), p, c[1], 0);
    var m1 := Taught(m, Slot(Choice(false), 0), c[1], 0);
    Teaches(m, Slot(Choice(false), 0), c[1], 0);
    r := DescendThree(data, m1, Low(false), 0, 1, 3, p, c[1..], 0, 0, 0);
    LeafReached(data, r, Low(false), 0, 8);
  }

  ghost predicate SlotsTrained(table: Table, p: Probability) {
    forall slot :: OnZeroPath(slot) && slot.family == Slots ==> ProbabilityOf(table, slot) == p
  }

  lemma SlotZero(data: seq<byte>, m: Machine, p: Probability, c: seq<Coder>) returns (r: Machine)
    requires SlotsTrained(m.table, p) && |c| == 7 && m.coder == c[0]
    requires forall i :: 0 <= i < 6 ==> Yields(data, c[i], p, c[i + 1], 0)
    ensures Tree(data, m, Slots, 0, SLOT_BITS) == Some((r, 0)) && r.coder == c[6] && r.contexts == m.contexts
    ensures SlotsTrained(r.table, Learn(p, 0))
    ensures forall slot :: !OnZeroPath(slot) || slot.family != Slots ==> ProbabilityOf(r.table, slot) == ProbabilityOf(m.table, slot)
  {
    hide Yields, TreeFrom, ProbabilityOf, Learn;
    SmallPowers();
    var half := DescendThree(data, m, Slots, 0, 1, 6, p, c[..4], 0, 0, 0);
    r := DescendThree(data, half, Slots, 0, 8, 3, p, c[3..], 0, 0, 0);
    LeafReached(data, r, Slots, 0, 64);
  }

  /** Slot 15 leaves the path of zeros after three bits. */
  lemma SlotFifteen(data: seq<byte>, m: Machine, p: Probability, c: seq<Coder>) returns (r: Machine)
    requires SlotsTrained(m.table, p) && |c| == 7 && m.coder == c[0]
    requires forall node :: node in {9, 19, 39} ==> ProbabilityOf(m.table, Slot(Slots, node)) == PROBABILITY_START
    requires Yields(data, c[0], p, c[1], 0) && Yields(data, c[1], p, c[2], 0) && Yields(data, c[2], p, c[3], 1)
    requires forall i :: 3 <= i < 6 ==> Yields(data, c[i], PROBABILITY_START, c[i + 1], 1)
    ensures Tree(data, m, Slots, 0, SLOT_BITS) == Some((r, 15)) && r.coder == c[6]
  {
    hide Yields, TreeFrom, ProbabilityOf, Learn;
    SmallPowers();
    var half := DescendThree(data, m, Slots, 0, 1, 6, p, c[..4], 0, 0, 1);
    r := DescendThree(data, half, Slots, 0, 9, 3, PROBABILITY_START, c[3..], 1, 1, 1);
    LeafReached(data, r, Slots, 0, 79);
  }

  /** Of the kind's two slots, only those of this state are touched. */
  lemma MatchChosen(data: seq<byte>, m: Machine, state: nat, p: Probability, c: seq<Coder>) returns (r: Machine)
    requires state < STATES && KindKnown(m.table, state, p) && |c| == 3 && m.coder == c[0]
    requires Yields(data, c[0], p, c[1], 1) && Yields(data, c[1], PROBABILITY_START, c[2], 0)
    ensures DecodeKind(data, m, state, 0) == Some((r, MatchKind)) && r.coder == c[2] && r.contexts == m.contexts
    ensures forall slot :: slot != Slot(IsMatch, state * POSITION_STATES) && slot != Slot(IsRepeat, state) ==>
              ProbabilityOf(r.table, slot) == ProbabilityOf(m.table, slot)
  {
    hide Yields, Taught, ProbabilityOf, Bit;
    var first, second := Slot(IsMatch, state * POSITION_STATES), Slot(IsRepeat, state);
    BitIs(data, m, first, p, c[1], 1);
    Teaches(m, first, c[1], 1);
    var m1 := Taught(m, first, c[1], 1);
    BitIs(data, m1, second, PROBABILITY_START, c[2], 0);
    Teaches(m1, second, c[2], 0);
    r := Taught(m1, second, c[2], 0);
  }

  /** What a table has learnt before a match: its kind from this state on, and the zeros from the matches before. */
  ghost predicate Learnt(table: Table, state: nat, kind: Probability, zeros: Probability) {
    && KindKnown(table, state, kind) && Trained(table, zeros)
    && (forall later :: state < later < STATES ==> KindKnown(table, later, PROBABILITY_START))
    && (forall node :: node in {9, 19, 39} ==> ProbabilityOf(table, Slot(Slots, node)) == PROBABILITY_START)
  }

  lemma MatchLearnt(m: Machine, data: seq<byte>, state: nat, kind: Probability, zeros: Probability, c: seq<Coder>, later: nat)
    returns (r: Machine)
    requires Learnt(m.table, state, kind, zeros) && |c| == 13 && m.coder == c[0] && state < later < STATES
    requires Yields(data, c[0], kind, c[1], 1) && Yields(data, c[1], PROBABILITY_START, c[2], 0)
    requires forall i :: 2 <= i < 12 ==> Yields(data, c[i], zeros, c[i + 1], 0)
    ensures var chosen := DecodeKind(data, m, state, 0);
      && chosen.Some? && chosen.value.1 == MatchKind
      && var length := Length(data, chosen.value.0, false, 0);
      && length.Some? && length.value.1 == 0
      && Tree(data, length.value.0, Slots, 0, SLOT_BITS) == Some((r, 0))
    ensures r.coder == c[12] && r.contexts == m.contexts && Learnt(r.table, later, PROBABILITY_START, Learn(zeros, 0))
  {
    hide Yields, ProbabilityOf, DecodeKind, Length, Tree, Learn;
    var m1 := MatchChosen(data, m, state, kind, c[..3]);
    assert forall i :: 0 <= i < 5 ==> c[2..7][i] == c[i + 2];
    var m2 := ShortLength(data, m1, zeros, c[2..7]);
    assert forall i :: 0 <= i < 7 ==> c[6..13][i] == c[i + 6];
    r := SlotZero(data, m2, zeros, c[6..13]);
    forall slot | OnZeroPath(slot)
      ensures ProbabilityOf(r.table, slot) == Learn(zeros, 0)
    {
    }
    StillLearnt(m.table, r.table, state, kind, zeros, later);
  }

  lemma StillLearnt(before: Table, table: Table, state: nat, kind: Probability, zeros: Probability, later: nat)
    requires Learnt(before, state, kind, zeros) && state < later < STATES && Trained(table, Learn(zeros, 0))
    requires forall slot :: slot != Slot(IsMatch, state * POSITION_STATES) && slot != Slot(IsRepeat, state) && !OnZeroPath(slot) ==>
               ProbabilityOf(table, slot) == ProbabilityOf(before, slot)
    ensures Learnt(table, later, PROBABILITY_START, Learn(zeros, 0))
  {
    hide ProbabilityOf, Learn;
    forall s | state < s < STATES
      ensures KindKnown(table, s, PROBABILITY_START)
    {
      assert KindKnown(before, s, PROBABILITY_START);
    }
  }

  lemma NoPosition(output: seq<byte>)
    ensures PositionState(PLAIN, output) == 0
  {
  }

  /** A turn that reads a match of two bytes one byte back. */
  lemma ShortMatch(data: seq<byte>, size: nat, p: Progress, kind: Probability, zeros: Probability, c: seq<Coder>)
    returns (next: Progress)
    requires p.Valid() && !p.done && p.state in {0, 7} && Learnt(p.machine.table, p.state, kind, zeros)
    requires |c| == 13 && p.machine.coder == c[0]
    requires Yields(data, c[0], kind, c[1], 1) && Yields(data, c[1], PROBABILITY_START, c[2], 0)
    requires forall i :: 2 <= i < 12 ==> Yields(data, c[i], zeros, c[i + 1], 0)
    requires 0 < |p.history.output| && |p.history.output| + 2 <= size
    ensures DecodePacket(data, size, PLAIN, p) == Some(next) && next.Valid() && !next.done && next.machine.coder == c[12]
    ensures next.state == (if p.state == 0 then 7 else 10) && next.history.output == Extend(p.history.output, 1, 2)
    ensures Learnt(next.machine.table, next.state, PROBABILITY_START, Learn(zeros, 0))
  {
    hide Yields, Learnt, DecodeKind, Length, Tree, Learn, PositionState, Extend, DecodeLiteral, DecodeRepeat;
    NoPosition(p.history.output);
    var m := MatchLearnt(p.machine, data, p.state, kind, zeros, c, if p.state == 0 then 7 else 10);
    next := DecodePacket(data, size, PLAIN, p).value;
  }

  // ----- the stream

  function OddStream(): seq<byte> {
    [0x00, 0x20, 0xC1, 0xFF, 0xE0, 0x55, 0x45, 0x7C, 0x2B, 0xFF]
  }

  predicate HasHead(data: seq<byte>) {
    |data| == 10 && data[0] == 0x00 && data[1] == 0x20 && data[2] == 0xC1 && data[3] == 0xFF && data[4] == 0xE0
  }

  /** What follows the bytes the decoder starts with. */
  predicate HasTail(data: seq<byte>) {
    |data| == 10 && data[5] == 0x55 && data[6] == 0x45 && data[7] == 0x7C && data[8] == 0x2B && data[9] == 0xFF
  }

  // The coder before each bit of a turn, and after the last.

  function LiteralCoders(): (c: seq<Coder>)
    ensures |c| == 10
  {
    [
      Coder(4294967295, 549584864, 5), Coder(2147482624, 549584864, 5), Coder(1073740800, 549584864, 5), Coder(536870912, 12714976, 5),
      Coder(268435456, 12714976, 5), Coder(134217728, 12714976, 5), Coder(67108864, 12714976, 5), Coder(33554432, 12714976, 5),
      Coder(16777216, 12714976, 5), Coder(8388608, 4326368, 5)]
  }

  function FirstCoders(): (c: seq<Coder>)
    ensures |c| == 13
  {
    [
      Coder(8388608, 4326368, 5), Coder(1040187392, 254037, 6), Coder(520093696, 254037, 6), Coder(260046848, 254037, 6),
      Coder(130023424, 254037, 6), Coder(65011712, 254037, 6), Coder(32505856, 254037, 6), Coder(16252928, 254037, 6),
      Coder(2080374784, 65033541, 7), Coder(1040187392, 65033541, 7), Coder(520093696, 65033541, 7), Coder(260046848, 65033541, 7),
      Coder(130023424, 65033541, 7)]
  }

  function SecondCoders(): (c: seq<Coder>)
    ensures |c| == 13
  {
    [
      Coder(130023424, 65033541, 7), Coder(65011712, 21829, 7), Coder(32505856, 21829, 7), Coder(16760832, 21829, 7),
      Coder(2212429824, 5588348, 8), Coder(1140784128, 5588348, 8), Coder(588216288, 5588348, 8), Coder(303297984, 5588348, 8),
      Coder(156387264, 5588348, 8), Coder(80636160, 5588348, 8), Coder(41577888, 5588348, 8), Coder(21437856, 5588348, 8),
      Coder(11053152, 5588348, 8)]
  }

  function ThirdCoders(): (c: seq<Coder>)
    ensures |c| == 13
  {
    [
      Coder(11053152, 5588348, 8), Coder(1414803456, 15813675, 9), Coder(707401728, 15813675, 9), Coder(375461757, 15813675, 9),
      Coder(199279710, 15813675, 9), Coder(105769448, 15813675, 9), Coder(56138115, 15813675, 9), Coder(29795757, 15813675, 9),
      Coder(15813676, 15813675, 9), Coder(1899618373, 1899618372, 10), Coder(949809221, 949809220, 10), Coder(474904645, 474904644, 10),
      Coder(237452357, 237452356, 10)]
  }

  lemma LiteralYields(data: seq<byte>)
    requires HasTail(data)
    ensures var c := LiteralCoders();
      && (forall i :: i in {0, 1, 3, 4, 5, 6, 7} ==> Yields(data, c[i], PROBABILITY_START, c[i + 1], 0))
      && Yields(data, c[2], PROBABILITY_START, c[3], 1) && Yields(data, c[8], PROBABILITY_START, c[9], 1)
  {
  }

  lemma FirstYields(data: seq<byte>)
    requires HasTail(data)
    ensures var c := FirstCoders();
      && Yields(data, c[0], 1056, c[1], 1) && Yields(data, c[1], PROBABILITY_START, c[2], 0)
      && (forall i :: 2 <= i < 12 ==> Yields(data, c[i], PROBABILITY_START, c[i + 1], 0))
  {
  }

  lemma SecondYields(data: seq<byte>)
    requires HasTail(data)
    ensures var c := SecondCoders();
      && Yields(data, c[0], PROBABILITY_START, c[1], 1) && Yields(data, c[1], PROBABILITY_START, c[2], 0)
      && (forall i :: 2 <= i < 12 ==> Yields(data, c[i], 1056, c[i + 1], 0))
  {
  }

  lemma ThirdYields(data: seq<byte>)
    requires HasTail(data)
    ensures var c := ThirdCoders();
      && Yields(data, c[0], PROBABILITY_START, c[1], 1) && Yields(data, c[1], PROBABILITY_START, c[2], 0)
      && (forall i :: 2 <= i < 8 ==> Yields(data, c[i], 1087, c[i + 1], 0)) && Yields(data, c[8], 1087, c[9], 1)
      && (forall i :: 9 <= i < 12 ==> Yields(data, c[i], PROBABILITY_START, c[i + 1], 1))
  {
    hide ThirdCoders, Yields;
    ThirdBegins(data);
    ThirdEnds(data);
  }

  lemma ThirdBegins(data: seq<byte>)
    requires HasTail(data)
    ensures var c := ThirdCoders();
      && Yields(data, c[0], PROBABILITY_START, c[1], 1) && Yields(data, c[1], PROBABILITY_START, c[2], 0)
      && (forall i :: 2 <= i < 8 ==> Yields(data, c[i], 1087, c[i + 1], 0))
  {
  }

  lemma ThirdEnds(data: seq<byte>)
    requires HasTail(data)
    ensures var c := ThirdCoders();
      && Yields(data, c[8], 1087, c[9], 1) && (forall i :: 9 <= i < 12 ==> Yields(data, c[i], PROBABILITY_START, c[i + 1], 1))
  {
  }

  // ----- turn by turn

  lemma NoContext()
    ensures LiteralContext(PLAIN, []) == 0
  {
    assert HighBits(0, 4) == 0;
    assert HighBits(0, 8) == HighBits(0, 4);
  }

  /** The first turn reads the literal 65 and touches only its own slots. */
  lemma LiteralTurn(data: seq<byte>, size: nat, p: Progress) returns (next: Progress)
    requires HasTail(data) && size > 0
    requires p == Progress(Machine(LiteralCoders()[0], map[], 1), EMPTY_HISTORY, 0, false)
    ensures DecodePacket(data, size, PLAIN, p) == Some(next) && next.Valid() && !next.done && next.state == 0
    ensures next.machine.coder == LiteralCoders()[9] && next.history.output == [65]
    ensures Learnt(next.machine.table, 0, 1056, PROBABILITY_START)
  {
    hide Yields, Tree, PositionState, LiteralContext, LiteralCoders, Taught, Bit, ProbabilityOf, Learnt;
    LiteralYields(data);
    FreshTable(p.machine.table);
    NoPosition([]);
    NoContext();
    var c, kind := LiteralCoders(), Slot(IsMatch, 0);
    BitIs(data, p.machine, kind, PROBABILITY_START, c[1], 0);
    Teaches(p.machine, kind, c[1], 0);
    var m := Taught(p.machine, kind, c[1], 0);
    assert DecodeKind(data, p.machine, 0, 0) == Some((m, LiteralKind));
    var r := LiteralTree(data, m);
    next := DecodePacket(data, size, PLAIN, p).value;
    OnlyLiterals(r.table);
  }

  lemma FreshTable(table: Table)
    requires table == map[]
    ensures forall slot :: ProbabilityOf(table, slot) == PROBABILITY_START
  {
  }

  lemma OnlyLiterals(table: Table)
    requires ProbabilityOf(table, Slot(IsMatch, 0)) == 1056
    requires forall slot: Slot :: slot.family != Literals && slot != Slot(IsMatch, 0) ==> ProbabilityOf(table, slot) == PROBABILITY_START
    ensures Learnt(table, 0, 1056, PROBABILITY_START)
  {
    hide ProbabilityOf;
  }

  lemma LiteralTree(data: seq<byte>, m: Machine) returns (r: Machine)
    requires HasTail(data) && m.contexts == 1 && m.coder == LiteralCoders()[1]
    requires forall slot: Slot :: slot.family == Literals ==> ProbabilityOf(m.table, slot) == PROBABILITY_START
    ensures Tree(data, m, Literals, 0, 8) == Some((r, 65)) && r.coder == LiteralCoders()[9] && r.contexts == 1
    ensures forall slot: Slot :: slot.family != Literals ==> ProbabilityOf(r.table, slot) == ProbabilityOf(m.table, slot)
  {
    hide Yields, TreeFrom, ProbabilityOf, Learn, LiteralCoders;
    LiteralYields(data);
    SmallPowers();
    var c := LiteralCoders();
    var m1 := DescendThree(data, m, Literals, 0, 1, 8, PROBABILITY_START, c[1..5], 0, 1, 0);
    var m2 := DescendThree(data, m1, Literals, 0, 10, 5, PROBABILITY_START, c[4..8], 0, 0, 0);
    var m3 := Descend(data, m2, Literals, 0, 80, 2, PROBABILITY_START, c[8], 0);
    r := Descend(data, m3, Literals, 0, 160, 1, PROBABILITY_START, c[9], 1);
    LeafReached(data, r, Literals, 0, 321);
  }

  /** One turn more. */
  lemma AfterOne(data: seq<byte>, size: nat, p: Progress, next: Progress, count: nat)
    requires p.Valid() && !p.done && |p.history.output| < size && next.Valid()
    requires DecodePacket(data, size, PLAIN, p) == Some(next)
    ensures |next.history.output| <= size
    ensures After(data, size, PLAIN, p, count + 1) == After(data, size, PLAIN, next, count)
  {
    hide DecodePacket;
    PacketGrows(data, size, PLAIN, p);
  }

  lemma Begins(data: seq<byte>)
    requires HasHead(data)
    ensures Beginning(data, PLAIN) == Some(Progress(Machine(LiteralCoders()[0], map[], 1), EMPTY_HISTORY, 0, false))
  {
    SmallPowers();
    PrefixOfFour(data);
  }

  lemma CodersMeet()
    ensures LiteralCoders()[9] == FirstCoders()[0] && FirstCoders()[12] == SecondCoders()[0] && SecondCoders()[12] == ThirdCoders()[0]
    ensures Steady(LiteralCoders()[0])
  {
  }

  /** Three turns in, the history is five bytes 65, and a match is about to be read. */
  lemma ThreeTurns(data: seq<byte>, size: nat, start: Progress) returns (p: Progress)
    requires HasTail(data) && size > 5
    requires start == Progress(Machine(LiteralCoders()[0], map[], 1), EMPTY_HISTORY, 0, false)
    ensures After(data, size, PLAIN, start, 3) == Some(p)
    ensures p.Valid() && !p.done && p.state == 10 && p.machine.coder == ThirdCoders()[0] && p.history.output == [65, 65, 65, 65, 65]
    ensures Learnt(p.machine.table, 10, PROBABILITY_START, 1087)
  {
    hide Yields, Learnt, DecodePacket, HasTail, LiteralCoders, FirstCoders, SecondCoders, ThirdCoders, After, Extend;
    FirstYields(data);
    SecondYields(data);
    CodersMeet();
    CopiesOf65();
    var p1 := LiteralTurn(data, size, start);
    var p2 := ShortMatch(data, size, p1, 1056, PROBABILITY_START, FirstCoders());
    p := ShortMatch(data, size, p2, PROBABILITY_START, 1056, SecondCoders());
    AfterOne(data, size, start, p1, 2);
    AfterOne(data, size, p1, p2, 1);
    AfterOne(data, size, p2, p, 0);
    NoTurns(data, size, p);
  }

  lemma NoTurns(data: seq<byte>, size: nat, p: Progress)
    requires p.Valid() && |p.history.output| <= size
    ensures After(data, size, PLAIN, p, 0) == Some(p)
  {
  }

  lemma CopiesOf65()
    ensures Extend([65], 1, 2) == [65, 65, 65] && Extend([65, 65, 65], 1, 2) == [65, 65, 65, 65, 65]
  {
    assert Extend([65, 65], 1, 1) == [65, 65, 65];
    assert Extend([65, 65, 65, 65], 1, 1) == [65, 65, 65, 65, 65];
  }

  lemma FourthTurn(data: seq<byte>, p: Progress) returns (m: Machine)
    requires p.Valid() && p.state == 10 && p.machine.coder == ThirdCoders()[0] && Learnt(p.machine.table, 10, PROBABILITY_START, 1087)
    requires HasTail(data)
    ensures AtSlot(data, PLAIN, p) == Some((m, 15)) && m.coder == ThirdCoders()[12]
  {
    hide Yields, ProbabilityOf, DecodeKind, Length, Tree, Learn, PositionState, ThirdCoders;
    ThirdYields(data);
    NoPosition(p.history.output);
    var c := ThirdCoders();
    var m1 := MatchChosen(data, p.machine, 10, PROBABILITY_START, c[..3]);
    assert forall i :: 0 <= i < 5 ==> c[2..7][i] == c[i + 2];
    var m2 := ShortLength(data, m1, 1087, c[2..7]);
    assert forall i :: 0 <= i < 7 ==> c[6..13][i] == c[i + 6];
    m := SlotFifteen(data, m2, 1087, c[6..13]);
  }

  lemma OddTopReached(m: Machine, data: seq<byte>)
    requires m.coder == ThirdCoders()[12]
    ensures Steady(m.coder) && OnOddTop(m.coder)
    ensures DecodeEvenBit(data, m.coder).Some? && !Steady(DecodeEvenBit(data, m.coder).value.0)
  {
  }

  /**
    * Decompressing this stream, to whatever size there is, three turns read five bytes and the fourth a match
    * whose distance goes on with equiprobable bits. Before the first of them the code is below the
    * range, and behind it no longer.
    */
  lemma DecompressCanLoseSteady(size: nat) returns (p: Progress, m: Machine)
    requires 5 < size <= MAX_UNPACKED
    ensures var begun := Beginning(OddStream(), PLAIN);
      begun.Some? && Steady(begun.value.machine.coder) && After(OddStream(), size, PLAIN, begun.value, 3) == Some(p)
    ensures p.Valid() && p.history.output == [65, 65, 65, 65, 65]
    ensures Decompress(OddStream(), PLAIN, size) == DecodePackets(OddStream(), size, PLAIN, p)
    ensures AtSlot(OddStream(), PLAIN, p) == Some((m, 15)) && 15 >= END_SLOT_MODEL
    ensures Steady(m.coder) && OnOddTop(m.coder)
    ensures DecodeEvenBit(OddStream(), m.coder).Some? && !Steady(DecodeEvenBit(OddStream(), m.coder).value.0)
  {
    StreamParts();
    hide After, AtSlot, Learnt, OddStream, HasHead, HasTail, LiteralCoders, ThirdCoders, DecodeEvenBit, DecodePackets, Decompress,
      Beginning;
    Begins(OddStream());
    DecompressBegins(OddStream(), PLAIN, size);
    CodersMeet();
    p := ThreeTurns(OddStream(), size, Beginning(OddStream(), PLAIN).value);
    DecodingGoesOn(OddStream(), size, PLAIN, Beginning(OddStream(), PLAIN).value, 3);
    m := FourthTurn(OddStream(), p);
    OddTopReached(m, OddStream());
  }

  lemma StreamParts()
    ensures HasHead(OddStream()) && HasTail(OddStream())
  {
  }
}
