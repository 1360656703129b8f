/**
  * An LZMA encoder, as the specification the decoder is proved against.
  *
  * A packet list has a meaning of its own, `Expand`, which knows nothing of bits, states or
  * probabilities. The encoder narrows an interval bit by bit; any stream that picks a number of the
  * final interval decompresses to the expansion.
  */
module LzmaEncoder {
  import opened Wrappers
  import opened Bytes
  import opened RangeCoder
  import opened Lz
  import opened Lzma

  datatype Packet =
    | Literal(value: byte)
    | ShortRepeat
    | Repeat(index: nat, length: nat)
    | Match(distance: nat, length: nat)
    | End(length: nat)

  // ----- what packets mean

  predicate Allowed(h: History, p: Packet) {
    && h.Valid()
    && match p
       case Literal(_) => true
       case ShortRepeat => h.repeats[0] + 1 <= |h.output|
       case Repeat(index, length) => index < 4 && length < 272 && h.repeats[index] + 1 <= |h.output|
       case Match(distance, length) => distance < 0xFFFF_FFFF && length < 272 && distance + 1 <= |h.output|
       case End(length) => length < 272
  }

  /** The last match may be cut off by the end of the output. */
  function Apply(h: History, p: Packet, size: nat): (r: History)
    requires Allowed(h, p) && |h.output| < size
    ensures r.Valid() && |r.output| <= size
    ensures !p.End? ==> |h.output| < |r.output|
  {
    match p
    case Literal(value) => h.(output := h.output + [value])
    case ShortRepeat => h.(output := h.output + [h.Back(0).value])
    case Repeat(index, length) => Copied(h.(repeats := Promote(h.repeats, index)), length, size).value
    case Match(distance, length) => Copied(h.(repeats := [distance] + h.repeats[..3]), length, size).value
    case End(_) => h
  }

  /** A list is complete when it fills the output or ends with the marker, whichever comes first. */
  predicate Complete(h: History, packets: seq<Packet>, size: nat)
    requires h.Valid() && |h.output| <= size
    decreases |packets|
  {
    if |h.output| == size then packets == []
    else
      && packets != []
      && Allowed(h, packets[0])
      && if packets[0].End? then |packets| == 1 else Complete(Apply(h, packets[0], size), packets[1..], size)
  }

  function Expand(h: History, packets: seq<Packet>, size: nat): (out: seq<byte>)
    requires h.Valid() && |h.output| <= size && Complete(h, packets, size)
    ensures |out| <= size
    decreases |packets|
  {
    if packets == [] then h.output else if packets[0].End? then h.output
    else Expand(Apply(h, packets[0], size), packets[1..], size)
  }

  // ----- the encoder

  datatype Encoded = Encoded(span: Span, table: Table)

  function PutBit(e: Encoded, slot: Slot, bit: nat): Encoded {
    var p := if slot in e.table then e.table[slot] else 1024;
    Encoded(EncodeBit(e.span, p, bit), e.table[slot := Learn(p, bit)])
  }

  function PutTree(e: Encoded, family: Family, base: nat, node: nat, bits: nat, value: nat): Encoded
    decreases bits
  {
    if bits == 0 then e
    else
      var bit := TopBit(value, bits - 1);
      PutTree(PutBit(e, Slot(family, base + node), bit), family, base, 2 * node + bit, bits - 1, BelowTop(value, bits - 1))
  }

  function PutReverseTree(e: Encoded, family: Family, base: nat, node: nat, bits: nat, value: nat): Encoded
    decreases bits
  {
    if bits == 0 then e
    else
      var bit := value % 2;
      PutReverseTree(PutBit(e, Slot(family, base + node), bit), family, base, 2 * node + bit, bits - 1, value / 2)
  }

  function PutLength(e: Encoded, again: bool, positionState: nat, length: nat): Encoded {
    if length < 8 then PutTree(PutBit(e, Slot(Choice(again), 0), 0), Low(again), positionState * 8, 1, 3, length)
    else
      var e := PutBit(e, Slot(Choice(again), 0), 1);
      if length < 16 then PutTree(PutBit(e, Slot(SecondChoice(again), 0), 0), Mid(again), positionState * 8, 1, 3, length - 8)
      else PutTree(PutBit(e, Slot(SecondChoice(again), 0), 1), High(again), 0, 1, 8, length - 16)
  }

  /** `bits` more bits of `value` follow the ones `node` already spells. */
  function PutMatched(e: Encoded, base: nat, node: nat, bits: nat, value: nat, matched: nat): Encoded
    decreases bits
  {
    if bits == 0 then e
    else
      var matchBit := matched / 128 % 2;
      var bit := TopBit(value, bits - 1);
      var e := PutBit(e, Slot(Literals, base + 0x100 + matchBit * 0x100 + node), bit);
      if matchBit == bit then PutMatched(e, base, 2 * node + bit, bits - 1, BelowTop(value, bits - 1), 2 * matched)
      else PutTree(e, Literals, base, 2 * node + bit, bits - 1, BelowTop(value, bits - 1))
  }

  /** How many bits follow the top two of a distance, and those two. */
  function ExtraBits(distance: nat): nat {
    if distance < 4 then 0 else 1 + ExtraBits(distance / 2)
  }

  function TopTwo(distance: nat): nat {
    if distance < 4 then distance else TopTwo(distance / 2)
  }

  function SlotOf(distance: nat): nat {
    2 * ExtraBits(distance) + TopTwo(distance)
  }

  function PutDistance(e: Encoded, slotState: nat, distance: nat): Encoded {
    var slot := SlotOf(distance);
    var e := PutTree(e, Slots, slotState * 64, 1, 6, slot);
    if slot < 4 then e
    else if distance < SlotBase(slot) then e
    else PutDistanceExtra(e, slot, distance - SlotBase(slot))
  }

  function PutDistanceExtra(e: Encoded, slot: nat, low: nat): Encoded
    requires slot >= 4
  {
    var bits := slot / 2 - 1;
    if slot < 14 then
      SpecialSlotFits(slot);
      PutReverseTree(e, Special, SlotBase(slot) - slot, 1, bits, low)
    else
      PutReverseTree(e.(span := EncodeDirect(e.span, bits - 4, low / 16)), Align, 0, 1, 4, low % 16)
  }

  function PutKind(e: Encoded, state: nat, positionState: nat, kind: Kind): Encoded {
    var slot := Slot(IsMatch, state * 16 + positionState);
    match kind
    case LiteralKind => PutBit(e, slot, 0)
    case RepeatKind => PutBit(PutBit(e, slot, 1), Slot(IsRepeat, state), 1)
    case MatchKind => PutBit(PutBit(e, slot, 1), Slot(IsRepeat, state), 0)
  }

  function PutRepeatIndex(e: Encoded, state: nat, positionState: nat, index: Option<nat>): Encoded {
    var first, long := Slot(IsRepeat0, state), Slot(IsRepeat0Long, state * 16 + positionState);
    match index
    case None => PutBit(PutBit(e, first, 0), long, 0)
    case Some(index) =>
      if index == 0 then PutBit(PutBit(e, first, 0), long, 1)
      else
        var e := PutBit(e, first, 1);
        if index == 1 then PutBit(e, Slot(IsRepeat1, state), 0)
        else PutBit(PutBit(e, Slot(IsRepeat1, state), 1), Slot(IsRepeat2, state), if index == 2 then 0 else 1)
  }

  /** What the encoder carries from packet to packet. */
  datatype Session = Session(encoded: Encoded, history: History, state: nat) {
    /** Once a match has set the state, the last distance stays within the output. */
    predicate Valid() {
      && history.Valid()
      && state < 12
      && (state >= 7 ==> history.repeats[0] + 1 <= |history.output|)
    }
  }

  const EMPTY_SESSION := Session(Encoded(WHOLE, map[]), History([], [0, 0, 0, 0]), 0)

  function KindOf(p: Packet): Kind {
    match p
    case Literal(_) => LiteralKind
    case Match(_, _) => MatchKind
    case End(_) => MatchKind
    case _ => RepeatKind
  }

  function StateAfter(state: nat, p: Packet): nat
    requires state < 12
  {
    match p
    case Literal(_) => AfterLiteral(state)
    case ShortRepeat => if state < 7 then 9 else 11
    case Repeat(_, _) => if state < 7 then 8 else 11
    case _ => if state < 7 then 7 else 10
  }

  function SlotState(length: nat): nat {
    if length < 4 then length else 3
  }

  function PutPayload(props: Properties, s: Session, p: Packet): Encoded
    requires props.Valid() && s.Valid() && Allowed(s.history, p)
  {
    var positionState := PositionState(props, s.history.output);
    match p
    case Literal(value) =>
      var base := LiteralContext(props, s.history.output) * 0x300;
      if s.state < 7 then PutTree(s.encoded, Literals, base, 1, 8, value)
      else PutMatched(s.encoded, base, 1, 8, value, s.history.Back(0).value)
    case ShortRepeat => PutRepeatIndex(s.encoded, s.state, positionState, None)
    case Repeat(index, length) =>
      PutLength(PutRepeatIndex(s.encoded, s.state, positionState, Some(index)), true, positionState, length)
    case Match(distance, length) =>
      PutDistance(PutLength(s.encoded, false, positionState, length), SlotState(length), distance)
    case End(length) =>
      PutDistance(PutLength(s.encoded, false, positionState, length), SlotState(length), 0xFFFF_FFFF)
  }

  function PutPacket(props: Properties, s: Session, p: Packet): Encoded
    requires props.Valid() && s.Valid() && Allowed(s.history, p)
  {
    PutPayload(props, s.(encoded := PutKind(s.encoded, s.state, PositionState(props, s.history.output), KindOf(p))), p)
  }

  lemma SessionStaysValid(s: Session, p: Packet, size: nat)
    requires s.Valid() && Allowed(s.history, p) && |s.history.output| < size && !p.End?
    ensures Session(s.encoded, Apply(s.history, p, size), StateAfter(s.state, p)).Valid()
  {
  }

  function PutPackets(props: Properties, s: Session, packets: seq<Packet>, size: nat): Encoded
    requires props.Valid() && s.Valid() && |s.history.output| <= size && Complete(s.history, packets, size)
    decreases |packets|
  {
    if packets == [] then s.encoded
    else
      var p := packets[0];
      var e := PutPacket(props, s, p);
      if p.End? then e
      else
        SessionStaysValid(s, p, size);
        PutPackets(props, Session(e, Apply(s.history, p, size), StateAfter(s.state, p)), packets[1..], size)
  }

  // ----- round trips, part by part

  function MachineAt(data: seq<byte>, e: Encoded, contexts: nat): Machine
    requires Picks(data, e.span)
  {
    Machine(CoderAt(data, e.span), e.table, contexts)
  }

  lemma PutBitRoundTrip(data: seq<byte>, e: Encoded, contexts: nat, slot: Slot, bit: nat)
    requires bit < 2 && InBounds(slot, contexts) && Picks(data, PutBit(e, slot, bit).span)
    ensures Picks(data, e.span)
    ensures Bit(data, MachineAt(data, e, contexts), slot) == Some((MachineAt(data, PutBit(e, slot, bit), contexts), bit))
  {
    BitRoundTrip(data, e.span, ProbabilityOf(e.table, slot), bit);
  }

  /** `limit` is the part of the array below the tree; the path never leaves it. */
  lemma {:induction false} TreeRoundTrip(
      data: seq<byte>, e: Encoded, contexts: nat, family: Family, base: nat, node: nat, bits: nat, value: nat, limit: nat)
    requires value < Pow2(bits)
    requires Shift(node + 1, bits) <= 2 * limit && base + limit <= Size(family, contexts)
    requires Picks(data, PutTree(e, family, base, node, bits, value).span)
    ensures Picks(data, e.span)
    ensures TreeFrom(data, MachineAt(data, e, contexts), family, base, node, bits)
         == Some((MachineAt(data, PutTree(e, family, base, node, bits, value), contexts), Shift(node, bits) + value))
    decreases bits
  {
    hide PutBit, Bit, Picks, CoderAt;
    if bits > 0 {
      var bit, rest := TopBit(value, bits - 1), BelowTop(value, bits - 1);
      var slot := Slot(family, base + node);
      DescendsOneBit(node, value, bits);
      PathStaysInside(node, bit, bits, limit);
      TreeRoundTrip(data, PutBit(e, slot, bit), contexts, family, base, 2 * node + bit, bits - 1, rest, limit);
      PutBitRoundTrip(data, e, contexts, slot, bit);
    }
  }

  lemma PathStaysInside(node: nat, bit: nat, bits: nat, limit: nat)
    requires bit < 2 && bits > 0 && Shift(node + 1, bits) <= 2 * limit
    ensures node < limit && Shift(2 * node + bit + 1, bits - 1) <= 2 * limit
  {
    ShiftFirst(node + 1, bits);
    ShiftGrows(2 * node + bit + 1, 2 * node + 2, bits - 1);
    ShiftGrows(2 * node + 2, 2 * node + 2, bits - 1);
  }

  lemma {:induction false} ReverseTreeRoundTrip(
      data: seq<byte>, e: Encoded, contexts: nat, family: Family, base: nat, node: nat, bits: nat, value: nat, limit: nat,
      place: nat, before: nat)
    requires value < Pow2(bits)
    requires Shift(node + 1, bits) <= 2 * limit && base + limit <= Size(family, contexts)
    requires Picks(data, PutReverseTree(e, family, base, node, bits, value).span)
    ensures Picks(data, e.span)
    ensures ReverseTree(data, MachineAt(data, e, contexts), family, base, node, bits, place, before)
         == Some((MachineAt(data, PutReverseTree(e, family, base, node, bits, value), contexts), before + place * value))
    decreases bits
  {
    hide PutBit, Bit, Picks, CoderAt;
    if bits > 0 {
      var bit := value % 2;
      var next := PutBit(e, Slot(family, base + node), bit);
      PathStaysInside(node, bit, bits, limit);
      ReverseTreeRoundTrip(data, next, contexts, family, base, 2 * node + bit, bits - 1, value / 2, limit,
                           2 * place, before + bit * place);
      PutBitRoundTrip(data, e, contexts, Slot(family, base + node), bit);
      LowBitWeighs(place, value);
    } else {
      assert place * value == 0;
    }
  }

  lemma LowBitWeighs(place: nat, value: nat)
    ensures value % 2 * place + 2 * place * (value / 2) == place * value
  {
    assert value == 2 * (value / 2) + value % 2;
    assert place * value == place * (2 * (value / 2)) + place * (value % 2);
  }

  /** A whole tree of `bits` bits, from its root. */
  lemma WholeTreeRoundTrip(data: seq<byte>, e: Encoded, contexts: nat, family: Family, base: nat, bits: nat, value: nat)
    requires value < Pow2(bits) && base + Pow2(bits) <= Size(family, contexts)
    requires Picks(data, PutTree(e, family, base, 1, bits, value).span)
    ensures Picks(data, e.span)
    ensures Tree(data, MachineAt(data, e, contexts), family, base, bits)
         == Some((MachineAt(data, PutTree(e, family, base, 1, bits, value), contexts), value))
  {
    hide Picks, CoderAt, PutTree, TreeFrom, Pow2, Shift;
    ShiftFirst(1, bits + 1);
    ShiftOfBit(bits + 1);
    ShiftOfBit(bits);
    TwiceThePower(bits);
    TreeRoundTrip(data, e, contexts, family, base, 1, bits, value, Pow2(bits));
  }

  lemma LengthRoundTrip(data: seq<byte>, e: Encoded, contexts: nat, again: bool, positionState: nat, length: nat)
    requires positionState < POSITION_STATES && length < LENGTHS
    requires Picks(data, PutLength(e, again, positionState, length).span)
    ensures Picks(data, e.span)
    ensures Length(data, MachineAt(data, e, contexts), again, positionState)
         == Some((MachineAt(data, PutLength(e, again, positionState, length), contexts), length))
  {
    hide PutBit, Bit, Picks, CoderAt, PutTree, Tree, Pow2;
    SmallPowers();
    var choice, second := Slot(Choice(again), 0), Slot(SecondChoice(again), 0);
    if length < 8 {
      WholeTreeRoundTrip(data, PutBit(e, choice, 0), contexts, Low(again), positionState * 8, LENGTH_BITS, length);
      PutBitRoundTrip(data, e, contexts, choice, 0);
    } else {
      var long := PutBit(e, choice, 1);
      if length < 16 {
        WholeTreeRoundTrip(data, PutBit(long, second, 0), contexts, Mid(again), positionState * 8, LENGTH_BITS, length - 8);
        PutBitRoundTrip(data, long, contexts, second, 0);
      } else {
        WholeTreeRoundTrip(data, PutBit(long, second, 1), contexts, High(again), 0, LENGTH_HIGH_BITS, length - 16);
        PutBitRoundTrip(data, long, contexts, second, 1);
      }
      PutBitRoundTrip(data, e, contexts, choice, 1);
    }
  }

  lemma PlainIsTree(data: seq<byte>, m: Machine, base: nat, node: nat, bits: nat)
    requires bits <= 8 && Pow2(8 - bits) <= node < 2 * Pow2(8 - bits)
    ensures PlainFrom(data, m, base, node) == TreeFrom(data, m, Literals, base, node, bits)
    decreases bits
  {
    hide Bit;
    SmallPowers();
    if bits > 0 {
      Pow2Grows(8 - bits, 7);
      var next := CheckedBit(data, m, Slot(Literals, base + node));
      if next.Some? {
        BitsAreBits(data, m, Slot(Literals, base + node));
        PlainIsTree(data, next.value.0, base, 2 * node + next.value.1, bits - 1);
      }
    }
  }

  lemma BitsAreBits(data: seq<byte>, m: Machine, slot: Slot)
    requires CheckedBit(data, m, slot).Some?
    ensures CheckedBit(data, m, slot).value.1 < 2
  {
  }

  lemma EightBits()
    ensures Pow2(0) == 1 && Pow2(7) == 128 && Pow2(8) == 256
  {
    SmallPowers();
  }

  lemma {:induction false} MatchedRoundTrip(
      data: seq<byte>, e: Encoded, contexts: nat, base: nat, node: nat, bits: nat, value: nat, matched: nat)
    requires value < Pow2(bits) && bits <= 8 && Pow2(8 - bits) <= node < 2 * Pow2(8 - bits)
    requires base + LITERAL_CODER_SIZE <= Size(Literals, contexts)
    requires Picks(data, PutMatched(e, base, node, bits, value, matched).span)
    ensures Picks(data, e.span)
    ensures MatchedFrom(data, MachineAt(data, e, contexts), base, node, matched)
         == Some((MachineAt(data, PutMatched(e, base, node, bits, value, matched), contexts), Shift(node, bits) + value))
    decreases bits
  {
    hide PutBit, Bit, Picks, CoderAt, PutTree, TreeFrom, PlainFrom;
    hide Pow2, TopBit, BelowTop;
    EightBits();
    if bits > 0 {
      Pow2Grows(8 - bits, 7);
      TwiceThePower(8 - bits);
      var bit, rest := TopBit(value, bits - 1), BelowTop(value, bits - 1);
      DescendsOneBit(node, value, bits);
      var matchBit := matched / 128 % 2;
      var slot := Slot(Literals, base + 0x100 + matchBit * 0x100 + node);
      var next := PutBit(e, slot, bit);
      var node' := 2 * node + bit;
      if matchBit == bit {
        MatchedRoundTrip(data, next, contexts, base, node', bits - 1, rest, 2 * matched);
      } else {
        FullPath(node', bits - 1);
        TreeRoundTrip(data, next, contexts, Literals, base, node', bits - 1, rest, 0x100);
        PlainIsTree(data, MachineAt(data, next, contexts), base, node', bits - 1);
      }
      PutBitRoundTrip(data, e, contexts, slot, bit);
    }
  }

  lemma {:induction false} FullPath(node: nat, bits: nat)
    requires bits <= 8 && node < 2 * Pow2(8 - bits)
    ensures Shift(node + 1, bits) <= 0x200
    decreases bits
  {
    if bits == 0 {
      SmallPowers();
    } else {
      ShiftFirst(node + 1, bits);
      ShiftGrows(2 * node + 2, 2 * node + 1 + 1, bits - 1);
      FullPath(2 * node + 1, bits - 1);
    }
  }

  // ----- distances

  lemma {:induction false} TopTwoLeads(distance: nat, limit: nat)
    requires 2 <= distance < Pow2(limit + 2)
    ensures 2 <= TopTwo(distance) < 4 && ExtraBits(distance) <= limit
    ensures var k := ExtraBits(distance); Shift(TopTwo(distance), k) <= distance < Shift(TopTwo(distance), k) + Pow2(k)
    decreases distance
  {
    if distance >= 4 {
      assert limit > 0;
      TopTwoLeads(distance / 2, limit - 1);
    }
  }

  lemma SlotParts(bits: nat, top: nat)
    requires bits >= 1 && 2 <= top < 4
    ensures (2 * bits + top) / 2 - 1 == bits && 2 + (2 * bits + top) % 2 == top
  {
  }

  lemma SlotCovers(distance: nat)
    requires 4 <= distance < U32
    ensures var slot := SlotOf(distance);
            && 4 <= slot < 64 && slot / 2 - 1 == ExtraBits(distance)
            && SlotBase(slot) <= distance < SlotBase(slot) + Pow2(slot / 2 - 1)
  {
    hide Pow2, Shift, TopTwo;
    TwoToThe32();
    TopTwoLeads(distance, 30);
    SlotParts(ExtraBits(distance), TopTwo(distance));
  }

  lemma SpecialRoundTrip(data: seq<byte>, e: Encoded, contexts: nat, slot: nat, low: nat)
    requires 4 <= slot < END_SLOT_MODEL && low < Pow2(slot / 2 - 1)
    requires Picks(data, PutDistanceExtra(e, slot, low).span)
    ensures Picks(data, e.span)
    ensures DistanceExtra(data, MachineAt(data, e, contexts), slot)
         == Some((MachineAt(data, PutDistanceExtra(e, slot, low), contexts), SlotBase(slot) + low))
  {
    hide Picks, CoderAt, PutReverseTree, ReverseTree, EncodeDirect, DecodeDirect, SlotBase, Pow2;
    var bits := slot / 2 - 1;
    SpecialSlotFits(slot);
    ShiftFirst(1, bits + 1);
    ShiftOfBit(bits + 1);
    TwiceThePower(bits);
    ReverseTreeRoundTrip(data, e, contexts, Special, SlotBase(slot) - slot, 1, bits, low, Pow2(bits), 1, 0);
  }

  lemma AlignRoundTrip(data: seq<byte>, e: Encoded, contexts: nat, slot: nat, low: nat)
    requires END_SLOT_MODEL <= slot < 64 && low < Pow2(slot / 2 - 1)
    requires Picks(data, PutDistanceExtra(e, slot, low).span)
    ensures Picks(data, e.span)
    ensures DistanceExtra(data, MachineAt(data, e, contexts), slot)
         == Some((MachineAt(data, PutDistanceExtra(e, slot, low), contexts), SlotBase(slot) + low))
  {
    hide Picks, CoderAt, PutReverseTree, ReverseTree, EncodeDirect, DecodeDirect, SlotBase, Pow2;
    var bits := slot / 2 - 1;
    SmallPowers();
    SixteenTimesThePower(bits - ALIGN_BITS);
    ShiftFirst(1, 5);
    ShiftOfBit(5);
    ShiftOfBit(bits - ALIGN_BITS);
    var high := e.(span := EncodeDirect(e.span, bits - ALIGN_BITS, low / 16));
    ReverseTreeRoundTrip(data, high, contexts, Align, 0, 1, ALIGN_BITS, low % 16, 16, 1, 0);
    DirectRoundTrip(data, e.span, bits - ALIGN_BITS, low / 16, 0);
  }

  lemma DistanceRoundTrip(data: seq<byte>, e: Encoded, contexts: nat, slotState: nat, distance: nat)
    requires slotState < LENGTH_STATES && distance < U32
    requires Picks(data, PutDistance(e, slotState, distance).span)
    ensures Picks(data, e.span)
    ensures Distance(data, MachineAt(data, e, contexts), slotState)
         == Some((MachineAt(data, PutDistance(e, slotState, distance), contexts), distance))
  {
    hide Picks, CoderAt, PutTree, Tree, PutDistanceExtra, DistanceExtra, Pow2, Shift, SlotBase;
    SmallPowers();
    var slot := SlotOf(distance);
    var next := PutTree(e, Slots, slotState * 64, 1, SLOT_BITS, slot);
    if distance >= 4 {
      SlotCovers(distance);
      if slot < END_SLOT_MODEL {
        SpecialRoundTrip(data, next, contexts, slot, distance - SlotBase(slot));
      } else {
        AlignRoundTrip(data, next, contexts, slot, distance - SlotBase(slot));
      }
    }
    WholeTreeRoundTrip(data, e, contexts, Slots, slotState * 64, SLOT_BITS, slot);
  }

  // ----- packets

  lemma KindRoundTrip(data: seq<byte>, e: Encoded, contexts: nat, state: nat, positionState: nat, kind: Kind)
    requires state < STATES && positionState < POSITION_STATES
    requires Picks(data, PutKind(e, state, positionState, kind).span)
    ensures Picks(data, e.span)
    ensures DecodeKind(data, MachineAt(data, e, contexts), state, positionState)
         == Some((MachineAt(data, PutKind(e, state, positionState, kind), contexts), kind))
  {
    hide PutBit, Bit, Picks, CoderAt;
    var slot := Slot(IsMatch, state * POSITION_STATES + positionState);
    if kind.LiteralKind? {
      PutBitRoundTrip(data, e, contexts, slot, 0);
    } else {
      var bit := if kind.RepeatKind? then 1 else 0;
      PutBitRoundTrip(data, PutBit(e, slot, 1), contexts, Slot(IsRepeat, state), bit);
      PutBitRoundTrip(data, e, contexts, slot, 1);
    }
  }

  lemma RepeatIndexRoundTrip(
      data: seq<byte>, e: Encoded, contexts: nat, state: nat, positionState: nat, index: Option<nat>)
    requires state < STATES && positionState < POSITION_STATES && (index.Some? ==> index.value < 4)
    requires Picks(data, PutRepeatIndex(e, state, positionState, index).span)
    ensures Picks(data, e.span)
    ensures RepeatIndex(data, MachineAt(data, e, contexts), state, positionState)
         == Some((MachineAt(data, PutRepeatIndex(e, state, positionState, index), contexts), index))
  {
    hide PutBit, Bit, Picks, CoderAt;
    var first, long := Slot(IsRepeat0, state), Slot(IsRepeat0Long, state * POSITION_STATES + positionState);
    if index.None? || index.value == 0 {
      PutBitRoundTrip(data, PutBit(e, first, 0), contexts, long, if index.None? then 0 else 1);
      PutBitRoundTrip(data, e, contexts, first, 0);
    } else {
      var next := PutBit(e, first, 1);
      var second := Slot(IsRepeat1, state);
      if index.value == 1 {
        PutBitRoundTrip(data, next, contexts, second, 0);
      } else {
        PutBitRoundTrip(data, PutBit(next, second, 1), contexts, Slot(IsRepeat2, state), if index.value == 2 then 0 else 1);
        PutBitRoundTrip(data, next, contexts, second, 1);
      }
      PutBitRoundTrip(data, e, contexts, first, 1);
    }
  }

  lemma LiteralContextFits(props: Properties, output: seq<byte>)
    requires props.Valid()
    ensures LiteralContext(props, output) < props.Contexts()
  {
    hide Shift, LowBits, HighBits, Pow2;
    var previous: nat := if output == [] then 0 else output[|output| - 1];
    SmallPowers();
    LowBitsBound(|output|, props.literalPosition);
    HighBitsBound(previous, 8 - props.literalContext, props.literalContext);
    ShiftBound(LowBits(|output|, props.literalPosition), HighBits(previous, 8 - props.literalContext),
               props.literalPosition, props.literalContext);
  }

  /** The decoder's state when the encoder's session had come this far. */
  function ProgressAt(data: seq<byte>, props: Properties, s: Session): Progress
    requires Picks(data, s.encoded.span)
  {
    Progress(MachineAt(data, s.encoded, props.Contexts()), s.history, s.state, false)
  }

  lemma LiteralValueRoundTrip(data: seq<byte>, props: Properties, s: Session, value: byte)
    requires props.Valid() && s.Valid()
    requires Picks(data, PutPayload(props, s, Literal(value)).span)
    ensures Picks(data, s.encoded.span)
    ensures LiteralValue(data, props, ProgressAt(data, props, s))
         == Some((MachineAt(data, PutPayload(props, s, Literal(value)), props.Contexts()), 0x100 + value))
  {
    hide Picks, CoderAt, PutTree, PutMatched, Tree, MatchedFrom, LiteralContext;
    var base := LiteralContext(props, s.history.output) * LITERAL_CODER_SIZE;
    LiteralContextFits(props, s.history.output);
    SmallPowers();
    if s.state < LITERAL_STATES {
      WholeTreeRoundTrip(data, s.encoded, props.Contexts(), Literals, base, 8, value);
    } else {
      MatchedRoundTrip(data, s.encoded, props.Contexts(), base, 1, 8, value, s.history.Back(0).value);
      ShiftOfBit(8);
    }
  }

  lemma LiteralRoundTrip(data: seq<byte>, props: Properties, s: Session, value: byte)
    requires props.Valid() && s.Valid()
    requires Picks(data, PutPayload(props, s, Literal(value)).span)
    ensures Picks(data, s.encoded.span)
    ensures var r := Session(PutPayload(props, s, Literal(value)),
                             s.history.(output := s.history.output + [value]), AfterLiteral(s.state));
            DecodeLiteral(data, props, ProgressAt(data, props, s)) == Some(ProgressAt(data, props, r))
  {
    hide Picks, CoderAt, PutPayload, LiteralValue;
    LiteralValueRoundTrip(data, props, s, value);
    assert (0x100 + value) % 256 == value;
  }

  predicate Decodes(data: seq<byte>, props: Properties, s: Session, p: Packet, size: nat, e: Encoded, next: Option<Progress>)
    requires s.Valid() && Allowed(s.history, p) && |s.history.output| < size && Picks(data, e.span)
  {
    var r := ProgressAt(data, props, Session(e, Apply(s.history, p, size), StateAfter(s.state, p)));
    next == Some(if p.End? then r.(done := true) else r)
  }

  lemma MatchRoundTrip(data: seq<byte>, props: Properties, s: Session, p: Packet, size: nat)
    requires props.Valid() && s.Valid() && |s.history.output| < size
    requires Allowed(s.history, p) && KindOf(p).MatchKind?
    requires Picks(data, PutPayload(props, s, p).span)
    ensures Picks(data, s.encoded.span)
    ensures Decodes(data, props, s, p, size, PutPayload(props, s, p), DecodeMatch(data, size, props, ProgressAt(data, props, s)))
  {
    hide Picks, CoderAt, PutLength, PutDistance, Length, Distance, PositionState;
    var positionState := PositionState(props, s.history.output);
    PositionStateFits(props, s.history.output);
    var distance := if p.End? then END_MARKER else p.distance;
    var next := PutLength(s.encoded, false, positionState, p.length);
    DistanceRoundTrip(data, next, props.Contexts(), SlotState(p.length), distance);
    LengthRoundTrip(data, s.encoded, props.Contexts(), false, positionState, p.length);
  }

  lemma ShortRepeatRoundTrip(data: seq<byte>, props: Properties, s: Session, size: nat)
    requires props.Valid() && s.Valid() && |s.history.output| < size
    requires Allowed(s.history, ShortRepeat)
    requires Picks(data, PutPayload(props, s, ShortRepeat).span)
    ensures Picks(data, s.encoded.span)
    ensures Decodes(data, props, s, ShortRepeat, size, PutPayload(props, s, ShortRepeat),
                    DecodeRepeat(data, size, props, ProgressAt(data, props, s)))
  {
    hide Picks, CoderAt, PutRepeatIndex, RepeatIndex, PositionState;
    PositionStateFits(props, s.history.output);
    RepeatIndexRoundTrip(data, s.encoded, props.Contexts(), s.state, PositionState(props, s.history.output), None);
  }

  lemma RepeatRoundTrip(data: seq<byte>, props: Properties, s: Session, p: Packet, size: nat)
    requires props.Valid() && s.Valid() && |s.history.output| < size
    requires Allowed(s.history, p) && p.Repeat?
    requires Picks(data, PutPayload(props, s, p).span)
    ensures Picks(data, s.encoded.span)
    ensures Decodes(data, props, s, p, size, PutPayload(props, s, p), DecodeRepeat(data, size, props, ProgressAt(data, props, s)))
  {
    hide Picks, CoderAt, PutLength, Length, PutRepeatIndex, RepeatIndex, PositionState, Extend, Promote;
    var positionState := PositionState(props, s.history.output);
    PositionStateFits(props, s.history.output);
    var next := PutRepeatIndex(s.encoded, s.state, positionState, Some(p.index));
    LengthRoundTrip(data, next, props.Contexts(), true, positionState, p.length);
    RepeatIndexRoundTrip(data, s.encoded, props.Contexts(), s.state, positionState, Some(p.index));
    PromoteFirst(s.history.repeats, p.index);
  }

  lemma PromoteFirst(repeats: seq<nat>, index: nat)
    requires index < |repeats|
    ensures Promote(repeats, index)[0] == repeats[index]
  {
  }

  lemma PacketRoundTrip(data: seq<byte>, props: Properties, s: Session, p: Packet, size: nat)
    requires props.Valid() && s.Valid() && |s.history.output| < size && Allowed(s.history, p)
    requires Picks(data, PutPacket(props, s, p).span)
    ensures Picks(data, s.encoded.span)
    ensures Decodes(data, props, s, p, size, PutPacket(props, s, p), DecodePacket(data, size, props, ProgressAt(data, props, s)))
  {
    hide Picks, CoderAt, PutPayload, DecodeLiteral, DecodeMatch, DecodeRepeat, PutKind, DecodeKind, PositionState;
    var positionState := PositionState(props, s.history.output);
    PositionStateFits(props, s.history.output);
    var q := s.(encoded := PutKind(s.encoded, s.state, positionState, KindOf(p)));
    match KindOf(p) {
      case LiteralKind => LiteralRoundTrip(data, props, q, p.value);
      case RepeatKind =>
        if p.ShortRepeat? {
          ShortRepeatRoundTrip(data, props, q, size);
        } else {
          RepeatRoundTrip(data, props, q, p, size);
        }
      case MatchKind => MatchRoundTrip(data, props, q, p, size);
    }
    KindRoundTrip(data, s.encoded, props.Contexts(), s.state, positionState, KindOf(p));
  }

  lemma {:induction false} PacketsRoundTrip(data: seq<byte>, props: Properties, s: Session, packets: seq<Packet>, size: nat)
    requires props.Valid() && s.Valid() && |s.history.output| <= size && Complete(s.history, packets, size)
    requires Picks(data, PutPackets(props, s, packets, size).span)
    ensures Picks(data, s.encoded.span)
    ensures DecodePackets(data, size, props, ProgressAt(data, props, s)) == Some(Expand(s.history, packets, size))
    decreases |packets|
  {
    hide Picks, CoderAt, PutPacket, DecodePacket;
    if packets != [] {
      var p := packets[0];
      if !p.End? {
        SessionStaysValid(s, p, size);
        PacketsRoundTrip(data, props, Session(PutPacket(props, s, p), Apply(s.history, p, size), StateAfter(s.state, p)),
                         packets[1..], size);
      }
      PacketRoundTrip(data, props, s, p, size);
      PacketGrows(data, size, props, ProgressAt(data, props, s));
    }
  }

  /** Whatever number of the final interval the stream spells, it decompresses to the packets' meaning. */
  lemma LzmaRoundTrip(data: seq<byte>, props: Properties, packets: seq<Packet>, size: nat)
    requires props.Valid() && size <= 0x4000_0000 && Complete(EMPTY_HISTORY, packets, size)
    requires Picks(data, PutPackets(props, EMPTY_SESSION, packets, size).span)
    ensures Decompress(data, props, size) == Some(Expand(EMPTY_HISTORY, packets, size))
  {
    PacketsRoundTrip(data, props, EMPTY_SESSION, packets, size);
    StartRoundTrip(data);
  }

  function Compress(props: Properties, packets: seq<Packet>, size: nat): seq<byte>
    requires props.Valid() && Complete(EMPTY_HISTORY, packets, size)
  {
    Flush(PutPackets(props, EMPTY_SESSION, packets, size).span)
  }

  /** Every complete packet list has a stream. */
  lemma CompressRoundTrip(props: Properties, packets: seq<Packet>, size: nat)
    requires props.Valid() && size <= 0x4000_0000 && Complete(EMPTY_HISTORY, packets, size)
    ensures Decompress(Compress(props, packets, size), props, size) == Some(Expand(EMPTY_HISTORY, packets, size))
  {
    var e := PutPackets(props, EMPTY_SESSION, packets, size);
    FlushPicks(e.span);
    LzmaRoundTrip(Compress(props, packets, size), props, packets, size);
  }
}
