/**
  * The LZMA stream: its grammar of modelled bits, and the packets the bits stand for.
  *
  * The source keeps its probabilities in thirteen local arrays. Here they are one table, keyed by
  * array and index; an entry nobody has touched is still at its starting value.
  */
module Lzma {
  import opened Wrappers
  import opened Bytes
  import opened RangeCoder
  import opened Lz

  const STATES := 12
  const LITERAL_STATES := 7
  const POSITION_STATES := 16
  const LITERAL_CODER_SIZE := 0x300
  const LENGTH_BITS := 3
  const LENGTH_HIGH_BITS := 8
  const LENGTH_STATES := 4
  const SLOT_BITS := 6
  const END_SLOT_MODEL := 14
  const ALIGN_BITS := 4
  const SPECIAL_POSITIONS := 115
  const MIN_MATCH := 2
  const LENGTHS := 272
  const END_MARKER := 0xFFFF_FFFF

  datatype Properties = Properties(literalContext: nat, literalPosition: nat, position: nat) {
    predicate Valid() {
      literalContext <= 8 && literalPosition <= 4 && position <= 4
    }

    function Contexts(): nat {
      Pow2(literalPosition + literalContext)
    }
  }

  datatype Family =
    | IsMatch | IsRepeat | IsRepeat0 | IsRepeat1 | IsRepeat2 | IsRepeat0Long
    | Literals | Slots | Special | Align
    | Choice(again: bool) | SecondChoice(again: bool)
    | Low(again: bool) | Mid(again: bool) | High(again: bool)

  datatype Slot = Slot(family: Family, index: nat)

  type Table = map<Slot, Probability>

  function Size(family: Family, contexts: nat): nat {
    match family
    case IsMatch => STATES * POSITION_STATES
    case IsRepeat0Long => STATES * POSITION_STATES
    case IsRepeat => STATES
    case IsRepeat0 => STATES
    case IsRepeat1 => STATES
    case IsRepeat2 => STATES
    case Literals => LITERAL_CODER_SIZE * contexts
    case Slots => LENGTH_STATES * 64
    case Special => SPECIAL_POSITIONS
    case Align => 16
    case Choice(_) => 1
    case SecondChoice(_) => 1
    case Low(_) => POSITION_STATES * 8
    case Mid(_) => POSITION_STATES * 8
    case High(_) => 256
  }

  predicate InBounds(slot: Slot, contexts: nat) {
    slot.index < Size(slot.family, contexts)
  }

  function ProbabilityOf(table: Table, slot: Slot): Probability {
    if slot in table then table[slot] else PROBABILITY_START
  }

  // ----- the decoder, on values

  /** The range decoder together with every probability. */
  datatype Machine = Machine(coder: Coder, table: Table, contexts: nat)

  function Bit(data: seq<byte>, m: Machine, slot: Slot): Option<(Machine, nat)>
    requires InBounds(slot, m.contexts)
  {
    var p := ProbabilityOf(m.table, slot);
    var (coder, bit) :- DecodeBit(data, m.coder, p);
    Some((m.(coder := coder, table := m.table[slot := Learn(p, bit)]), bit))
  }

  /** A tree indexes its array with `get_mut`, so running off it ends the decoding. */
  function CheckedBit(data: seq<byte>, m: Machine, slot: Slot): Option<(Machine, nat)> {
    if InBounds(slot, m.contexts) then Bit(data, m, slot) else None
  }

  function TreeFrom(data: seq<byte>, m: Machine, family: Family, base: nat, node: nat, bits: nat): (r: Option<(Machine, nat)>)
    ensures r.Some? ==> r.value.1 >= Shift(node, bits)
    decreases bits
  {
    if bits == 0 then Some((m, node))
    else
      var (m, bit) :- CheckedBit(data, m, Slot(family, base + node));
      ShiftFirst(node, bits);
      ShiftGrows(2 * node, 2 * node + bit, bits - 1);
      TreeFrom(data, m, family, base, 2 * node + bit, bits - 1)
  }

  function Tree(data: seq<byte>, m: Machine, family: Family, base: nat, bits: nat): Option<(Machine, nat)> {
    var (m, node) :- TreeFrom(data, m, family, base, 1, bits);
    ShiftOfBit(bits);
    Some((m, node - Pow2(bits)))
  }

  /** `place` is the weight of the next bit, which is the lowest one not read yet. */
  function ReverseTree(data: seq<byte>, m: Machine, family: Family, base: nat, node: nat, bits: nat, place: nat, value: nat)
    : Option<(Machine, nat)>
    decreases bits
  {
    if bits == 0 then Some((m, value))
    else
      var (m, bit) :- CheckedBit(data, m, Slot(family, base + node));
      ReverseTree(data, m, family, base, 2 * node + bit, bits - 1, 2 * place, value + bit * place)
  }

  function Length(data: seq<byte>, m: Machine, again: bool, positionState: nat): Option<(Machine, nat)>
    requires positionState < POSITION_STATES
  {
    var (m, first) :- Bit(data, m, Slot(Choice(again), 0));
    if first == 0 then Tree(data, m, Low(again), positionState * 8, LENGTH_BITS)
    else
      var (m, second) :- Bit(data, m, Slot(SecondChoice(again), 0));
      if second == 0 then
        var (m, length) :- Tree(data, m, Mid(again), positionState * 8, LENGTH_BITS);
        Some((m, 8 + length))
      else
        var (m, length) :- Tree(data, m, High(again), 0, LENGTH_HIGH_BITS);
        Some((m, 16 + length))
  }

  /** Literals after a match mix in the byte at the last distance until the first bit that differs. */
  function MatchedFrom(data: seq<byte>, m: Machine, base: nat, node: nat, matched: nat): Option<(Machine, nat)>
    requires node > 0
    decreases 0x100 - node
  {
    if node >= 0x100 then Some((m, node))
    else
      var matchBit := matched / 128 % 2;
      var (m, bit) :- CheckedBit(data, m, Slot(Literals, base + 0x100 + matchBit * 0x100 + node));
      if matchBit == bit then MatchedFrom(data, m, base, 2 * node + bit, 2 * matched)
      else PlainFrom(data, m, base, 2 * node + bit)
  }

  function PlainFrom(data: seq<byte>, m: Machine, base: nat, node: nat): Option<(Machine, nat)>
    requires node > 0
    decreases 0x100 - node
  {
    if node >= 0x100 then Some((m, node))
    else
      var (m, bit) :- CheckedBit(data, m, Slot(Literals, base + node));
      PlainFrom(data, m, base, 2 * node + bit)
  }

  function SlotBase(slot: nat): nat
    requires slot >= 4
  {
    Shift(2 + slot % 2, slot / 2 - 1)
  }

  function Distance(data: seq<byte>, m: Machine, slotState: nat): Option<(Machine, nat)>
    requires slotState < LENGTH_STATES
  {
    var (m, slot) :- Tree(data, m, Slots, slotState * 64, SLOT_BITS);
    if slot < 4 then Some((m, slot))
    else DistanceExtra(data, m, slot)
  }

  function DistanceExtra(data: seq<byte>, m: Machine, slot: nat): Option<(Machine, nat)>
    requires slot >= 4
  {
    var bits := slot / 2 - 1;
    var base := SlotBase(slot);
    if slot < END_SLOT_MODEL then
      SpecialSlotFits(slot);
      var (m, low) :- ReverseTree(data, m, Special, base - slot, 1, bits, 1, 0);
      Some((m, base + low))
    else
      var (coder, high) :- DecodeDirect(data, m.coder, bits - ALIGN_BITS, 0);
      var (m, low) :- ReverseTree(data, m.(coder := coder), Align, 0, 1, ALIGN_BITS, 1, 0);
      Some((m, base + high * 16 + low))
  }

  lemma SpecialSlotFits(slot: nat)
    requires 4 <= slot < END_SLOT_MODEL
    ensures slot <= SlotBase(slot)
    ensures SlotBase(slot) - slot + Pow2(slot / 2 - 1) <= SPECIAL_POSITIONS
  {
    SmallPowers();
    var k := slot / 2 - 1;
    assert k in {1, 2, 3, 4, 5};
    ShiftAdds(2, slot % 2, k);
    ShiftFirst(1, k + 1);
    ShiftOfBit(k + 1);
    ShiftOfBit(k);
  }

  // ----- history

  /** What the packets act on: the bytes so far and the four last distances. */
  datatype History = History(output: seq<byte>, repeats: seq<nat>) {
    predicate Valid() {
      |repeats| == 4
    }

    /** The byte a distance points at, if the output reaches that far back. */
    function Back(index: nat): Option<byte>
      requires index < |repeats|
    {
      if repeats[index] + 1 <= |output| then Some(output[|output| - repeats[index] - 1]) else None
    }
  }

  const EMPTY_HISTORY := History([], [0, 0, 0, 0])

  /** Rotates the first index + 1 distances so that the chosen one comes first. */
  function Promote(repeats: seq<nat>, index: nat): (r: seq<nat>)
    requires index < |repeats|
    ensures |r| == |repeats|
  {
    [repeats[index]] + repeats[..index] + repeats[index + 1..]
  }

  function Copied(h: History, length: nat, size: nat): Option<History>
    requires h.Valid() && |h.output| <= size
  {
    if h.repeats[0] + 1 > |h.output| then None
    else
      var count := if length + MIN_MATCH <= size - |h.output| then length + MIN_MATCH else size - |h.output|;
      Some(h.(output := Extend(h.output, h.repeats[0] + 1, count)))
  }

  function AfterLiteral(state: nat): nat
    requires state < STATES
  {
    if state < 4 then 0 else if state < 10 then state - 3 else state - 6
  }

  datatype Progress = Progress(machine: Machine, history: History, state: nat, done: bool) {
    predicate Valid() {
      history.Valid() && state < STATES
    }
  }

  /** The literal's position and the top bits of the byte before it choose its coder. */
  function LiteralContext(props: Properties, output: seq<byte>): nat
    requires props.Valid()
  {
    var previous: nat := if output == [] then 0 else output[|output| - 1];
    Shift(LowBits(|output|, props.literalPosition), props.literalContext) + HighBits(previous, 8 - props.literalContext)
  }

  function PositionState(props: Properties, output: seq<byte>): nat {
    LowBits(|output|, props.position)
  }

  lemma PositionStateFits(props: Properties, output: seq<byte>)
    requires props.Valid()
    ensures PositionState(props, output) < POSITION_STATES
  {
    LowBitsBound(|output|, props.position);
    Pow2Grows(props.position, 4);
    SmallPowers();
  }

  function LiteralValue(data: seq<byte>, props: Properties, p: Progress): Option<(Machine, nat)>
    requires props.Valid() && p.Valid()
  {
    var base := LiteralContext(props, p.history.output) * LITERAL_CODER_SIZE;
    if base + LITERAL_CODER_SIZE > Size(Literals, p.machine.contexts) then None
    else if p.state < LITERAL_STATES then
      var (m, value) :- Tree(data, p.machine, Literals, base, 8);
      Some((m, 0x100 + value))
    else
      var matched :- p.history.Back(0);
      MatchedFrom(data, p.machine, base, 1, matched)
  }

  /** The coder leaves the byte below a leading one. */
  function DecodeLiteral(data: seq<byte>, props: Properties, p: Progress): Option<Progress>
    requires props.Valid() && p.Valid()
  {
    var (m, value) :- LiteralValue(data, props, p);
    Some(Progress(m, p.history.(output := p.history.output + [value % 256]), AfterLiteral(p.state), false))
  }

  function DecodeMatch(data: seq<byte>, size: nat, props: Properties, p: Progress): Option<Progress>
    requires props.Valid() && p.Valid() && |p.history.output| <= size
  {
    PositionStateFits(props, p.history.output);
    var (m, length) :- Length(data, p.machine, false, PositionState(props, p.history.output));
    var (m, distance) :- Distance(data, m, if length < LENGTH_STATES then length else LENGTH_STATES - 1);
    var state := if p.state < LITERAL_STATES then 7 else 10;
    if distance == END_MARKER then Some(Progress(m, p.history, state, true))
    else
      var history :- Copied(p.history.(repeats := [distance] + p.history.repeats[..3]), length, size);
      Some(Progress(m, history, state, false))
  }

  /** Which of the last four distances is used again; None stands for the single-byte repeat. */
  function RepeatIndex(data: seq<byte>, m: Machine, state: nat, positionState: nat): (r: Option<(Machine, Option<nat>)>)
    requires state < STATES && positionState < POSITION_STATES
    ensures r.Some? && r.value.1.Some? ==> r.value.1.value < 4
  {
    var (m, first) :- Bit(data, m, Slot(IsRepeat0, state));
    if first == 0 then
      var (m, long) :- Bit(data, m, Slot(IsRepeat0Long, state * POSITION_STATES + positionState));
      Some((m, if long == 0 then None else Some(0)))
    else
      var (m, second) :- Bit(data, m, Slot(IsRepeat1, state));
      if second == 0 then Some((m, Some(1)))
      else
        var (m, third) :- Bit(data, m, Slot(IsRepeat2, state));
        Some((m, Some(if third == 0 then 2 else 3)))
  }

  function DecodeRepeat(data: seq<byte>, size: nat, props: Properties, p: Progress): Option<Progress>
    requires props.Valid() && p.Valid() && |p.history.output| <= size
  {
    if p.history.output == [] then None
    else
      PositionStateFits(props, p.history.output);
      var positionState := PositionState(props, p.history.output);
      var (m, index) :- RepeatIndex(data, p.machine, p.state, positionState);
      match index
      case None =>
        var byte :- p.history.Back(0);
        Some(Progress(m, p.history.(output := p.history.output + [byte]), if p.state < LITERAL_STATES then 9 else 11, false))
      case Some(index) =>
        var (m, length) :- Length(data, m, true, positionState);
        var history :- Copied(p.history.(repeats := Promote(p.history.repeats, index)), length, size);
        Some(Progress(m, history, if p.state < LITERAL_STATES then 8 else 11, false))
  }

  datatype Kind = LiteralKind | MatchKind | RepeatKind

  function DecodeKind(data: seq<byte>, m: Machine, state: nat, positionState: nat): Option<(Machine, Kind)>
    requires state < STATES && positionState < POSITION_STATES
  {
    var (m, isMatch) :- Bit(data, m, Slot(IsMatch, state * POSITION_STATES + positionState));
    if isMatch == 0 then Some((m, LiteralKind))
    else
      var (m, isRepeat) :- Bit(data, m, Slot(IsRepeat, state));
      Some((m, if isRepeat == 1 then RepeatKind else MatchKind))
  }

  /** One turn of the decoding loop. */
  function DecodePacket(data: seq<byte>, size: nat, props: Properties, p: Progress): Option<Progress>
    requires props.Valid() && p.Valid() && |p.history.output| < size
  {
    PositionStateFits(props, p.history.output);
    var (m, kind) :- DecodeKind(data, p.machine, p.state, PositionState(props, p.history.output));
    match kind
    case LiteralKind => DecodeLiteral(data, props, p.(machine := m))
    case RepeatKind => DecodeRepeat(data, size, props, p.(machine := m))
    case MatchKind => DecodeMatch(data, size, props, p.(machine := m))
  }

  /** A turn of the loop keeps the state and either ends the stream or lengthens the output. */
  predicate Grows(p: Progress, next: Option<Progress>, size: nat) {
    next.Some? ==>
      && next.value.Valid()
      && |next.value.history.output| <= size
      && (next.value.done || |p.history.output| < |next.value.history.output|)
  }

  lemma LiteralGrows(data: seq<byte>, props: Properties, p: Progress, size: nat)
    requires props.Valid() && p.Valid() && |p.history.output| < size
    ensures Grows(p, DecodeLiteral(data, props, p), size)
  {
    hide LiteralValue;
  }

  lemma MatchGrows(data: seq<byte>, size: nat, props: Properties, p: Progress)
    requires props.Valid() && p.Valid() && |p.history.output| < size
    ensures Grows(p, DecodeMatch(data, size, props, p), size)
  {
    hide Length, Distance;
    PositionStateFits(props, p.history.output);
    var length := Length(data, p.machine, false, PositionState(props, p.history.output));
    if length.Some? {
      var slotState := if length.value.1 < LENGTH_STATES then length.value.1 else LENGTH_STATES - 1;
      var distance := Distance(data, length.value.0, slotState);
    }
  }

  lemma RepeatGrows(data: seq<byte>, size: nat, props: Properties, p: Progress)
    requires props.Valid() && p.Valid() && |p.history.output| < size
    ensures Grows(p, DecodeRepeat(data, size, props, p), size)
  {
    PositionStateFits(props, p.history.output);
    var positionState := PositionState(props, p.history.output);
    var index := RepeatIndex(data, p.machine, p.state, positionState);
    if index.Some? {
      var length := Length(data, index.value.0, true, positionState);
    }
  }

  lemma PacketGrows(data: seq<byte>, size: nat, props: Properties, p: Progress)
    requires props.Valid() && p.Valid() && |p.history.output| < size
    ensures Grows(p, DecodePacket(data, size, props, p), size)
  {
    hide DecodeLiteral, DecodeMatch, DecodeRepeat, DecodeKind, PositionState;
    PositionStateFits(props, p.history.output);
    var kind := DecodeKind(data, p.machine, p.state, PositionState(props, p.history.output));
    if kind.Some? {
      var q := p.(machine := kind.value.0);
      LiteralGrows(data, props, q, size);
      RepeatGrows(data, size, props, q);
      MatchGrows(data, size, props, q);
    }
  }

  function DecodePackets(data: seq<byte>, size: nat, props: Properties, p: Progress): Option<seq<byte>>
    requires props.Valid() && p.Valid() && |p.history.output| <= size
    decreases if p.done then 0 else 1, size - |p.history.output|
  {
    if p.done || |p.history.output| == size then Some(p.history.output)
    else
      PacketGrows(data, size, props, p);
      var next :- DecodePacket(data, size, props, p);
      DecodePackets(data, size, props, next)
  }

  function Decompress(data: seq<byte>, props: Properties, size: nat): Option<seq<byte>> {
    if !props.Valid() then None
    else
      var coder :- Start(data);
      if size > MAX_UNPACKED then None
      else DecodePackets(data, size, props, Progress(Machine(coder, map[], props.Contexts()), EMPTY_HISTORY, 0, false))
  }
}
