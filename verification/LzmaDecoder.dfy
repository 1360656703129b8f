/**
  * The LZMA decoder as the source runs it: a range decoder and its probabilities updated in place,
  * loops over bits and packets. Every method is proved against the functions of `RangeCoder` and
  * `Lzma`, and keeps both registers bounded whatever the stream holds.
  */
module LzmaDecoder {
  import opened Wrappers
  import opened Bytes
  import opened RangeCoder
  import opened Lz
  import opened Lzma

  class RangeDecoder {
    const data: seq<byte>
    var next: nat
    var range: nat
    var code: nat

    function View(): Coder
      reads this
    {
      Coder(range, code, next)
    }

    predicate Valid()
      reads this
    {
      Bounded(View())
    }

    constructor (data: seq<byte>)
      requires Start(data).Some?
      ensures Valid() && this.data == data && View() == Start(data).value
    {
      this.data := data;
      next, range, code := 5, U32 - 1, Prefix(data, 4);
      new;
      PrefixOfFour(data);
    }

    method Normalize() returns (ok: bool)
      requires Valid()
      modifies this
      ensures Valid()
      ensures ok == RangeCoder.Normalize(data, old(View())).Some?
      ensures ok ==> View() == RangeCoder.Normalize(data, old(View())).value && range >= TOP
    {
      if range < TOP {
        if next > |data| + READ_SLACK {
          return false;
        }
        var byte := Padded(data, next);
        next := next + 1;
        range := range * 256;
        code := code * 256 % U32 + byte;
      }
      return true;
    }

    method Bit(probability: Probability) returns (bit: Option<nat>, updated: Probability)
      requires Valid()
      modifies this
      ensures Valid()
      ensures bit.Some? == DecodeBit(data, old(View()), probability).Some?
      ensures bit.Some? ==> DecodeBit(data, old(View()), probability) == Some((View(), bit.value))
      ensures bit.Some? ==> updated == Learn(probability, bit.value)
    {
      updated := probability;
      var ok := Normalize();
      if !ok {
        return None, updated;
      }

      var bound := range / PROBABILITY_ONE * probability;
      BoundBelowRange(range, probability);
      if code < bound {
        range := bound;
        updated := probability + (PROBABILITY_ONE - probability) / MOVE;
        return Some(0), updated;
      }

      range := range - bound;
      code := code - bound;
      updated := probability - probability / MOVE;
      return Some(1), updated;
    }

    method Direct(count: nat) returns (value: Option<nat>)
      requires Valid()
      modifies this
      ensures Valid()
      ensures value.Some? == DecodeDirect(data, old(View()), count, 0).Some?
      ensures value.Some? ==> DecodeDirect(data, old(View()), count, 0) == Some((View(), value.value))
    {
      var bits: nat := 0;
      for done := 0 to count
        invariant Valid()
        invariant DecodeDirect(data, View(), count - done, bits) == DecodeDirect(data, old(View()), count, 0)
      {
        var ok := Normalize();
        if !ok {
          return None;
        }
        range := range / 2;
        var bit := if code >= range then 1 else 0;
        if bit == 1 {
          code := code - range;
        }
        bits := 2 * bits + bit;
      }
      return Some(bits);
    }
  }

  /** All the probability arrays of one run. */
  class Probabilities {
    const contexts: nat
    var table: Table

    constructor (contexts: nat)
      ensures this.contexts == contexts && table == map[]
    {
      this.contexts := contexts;
      table := map[];
    }
  }

  function MachineOf(range: RangeDecoder, probabilities: Probabilities): Machine
    reads range, probabilities
  {
    Machine(range.View(), probabilities.table, probabilities.contexts)
  }

  /** A method did what the function says: it failed with it, or has its value and its machine. */
  predicate Agrees<T(==)>(spec: Option<(Machine, T)>, m: Machine, result: Option<T>) {
    if spec.None? then result.None? else result == Some(spec.value.1) && m == spec.value.0
  }

  method Bit(range: RangeDecoder, probabilities: Probabilities, slot: Slot) returns (bit: Option<nat>)
    requires range.Valid() && InBounds(slot, probabilities.contexts)
    modifies range, probabilities
    ensures range.Valid()
    ensures Agrees(Lzma.Bit(range.data, old(MachineOf(range, probabilities)), slot), MachineOf(range, probabilities), bit)
    ensures bit.Some? ==> bit.value < 2
  {
    var updated;
    bit, updated := range.Bit(ProbabilityOf(probabilities.table, slot));
    if bit.Some? {
      probabilities.table := probabilities.table[slot := updated];
    }
  }

  method CheckedBit(range: RangeDecoder, probabilities: Probabilities, slot: Slot) returns (bit: Option<nat>)
    requires range.Valid()
    modifies range, probabilities
    ensures range.Valid()
    ensures Agrees(Lzma.CheckedBit(range.data, old(MachineOf(range, probabilities)), slot), MachineOf(range, probabilities), bit)
    ensures bit.Some? ==> bit.value < 2
  {
    if !InBounds(slot, probabilities.contexts) {
      return None;
    }
    bit := Bit(range, probabilities, slot);
  }

  method Tree(range: RangeDecoder, probabilities: Probabilities, family: Family, base: nat, bits: nat)
    returns (value: Option<nat>)
    requires range.Valid()
    modifies range, probabilities
    ensures range.Valid()
    ensures Agrees(Lzma.Tree(range.data, old(MachineOf(range, probabilities)), family, base, bits),
                   MachineOf(range, probabilities), value)
  {
    hide Lzma.CheckedBit;
    var node: nat := 1;
    ghost var whole := TreeFrom(range.data, MachineOf(range, probabilities), family, base, 1, bits);
    for done := 0 to bits
      invariant range.Valid()
      invariant TreeFrom(range.data, MachineOf(range, probabilities), family, base, node, bits - done) == whole
    {
      var bit := CheckedBit(range, probabilities, Slot(family, base + node));
      if bit.None? {
        return None;
      }
      node := 2 * node + bit.value;
    }
    ShiftOfBit(bits);
    return Some(node - Pow2(bits));
  }

  method ReverseTree(range: RangeDecoder, probabilities: Probabilities, family: Family, base: nat, bits: nat)
    returns (result: Option<nat>)
    requires range.Valid()
    modifies range, probabilities
    ensures range.Valid()
    ensures Agrees(Lzma.ReverseTree(range.data, old(MachineOf(range, probabilities)), family, base, 1, bits, 1, 0),
                   MachineOf(range, probabilities), result)
  {
    hide Lzma.CheckedBit;
    var node: nat, place: nat, value: nat := 1, 1, 0;
    ghost var whole := Lzma.ReverseTree(range.data, MachineOf(range, probabilities), family, base, 1, bits, 1, 0);
    for index := 0 to bits
      invariant range.Valid()
      invariant Lzma.ReverseTree(range.data, MachineOf(range, probabilities), family, base, node, bits - index, place, value)
             == whole
    {
      var bit := CheckedBit(range, probabilities, Slot(family, base + node));
      if bit.None? {
        return None;
      }
      node := 2 * node + bit.value;
      value := value + bit.value * place;
      place := 2 * place;
    }
    return Some(value);
  }

  method Length(range: RangeDecoder, probabilities: Probabilities, again: bool, positionState: nat)
    returns (length: Option<nat>)
    requires range.Valid() && positionState < POSITION_STATES
    modifies range, probabilities
    ensures range.Valid()
    ensures Agrees(Lzma.Length(range.data, old(MachineOf(range, probabilities)), again, positionState),
                   MachineOf(range, probabilities), length)
  {
    hide Lzma.Bit, Lzma.Tree;
    var first := Bit(range, probabilities, Slot(Choice(again), 0));
    if first.None? {
      return None;
    }
    if first.value == 0 {
      length := Tree(range, probabilities, Low(again), positionState * 8, LENGTH_BITS);
      return;
    }

    var second := Bit(range, probabilities, Slot(SecondChoice(again), 0));
    if second.None? {
      return None;
    }
    if second.value == 0 {
      var mid := Tree(range, probabilities, Mid(again), positionState * 8, LENGTH_BITS);
      return if mid.Some? then Some(8 + mid.value) else None;
    }

    var high := Tree(range, probabilities, High(again), 0, LENGTH_HIGH_BITS);
    return if high.Some? then Some(16 + high.value) else None;
  }

  method MatchedLiteral(range: RangeDecoder, probabilities: Probabilities, base: nat, lastMatched: byte)
    returns (value: Option<nat>)
    requires range.Valid()
    modifies range, probabilities
    ensures range.Valid()
    ensures Agrees(MatchedFrom(range.data, old(MachineOf(range, probabilities)), base, 1, lastMatched),
                   MachineOf(range, probabilities), value)
  {
    hide Lzma.CheckedBit;
    var matched: nat := lastMatched;
    var node: nat := 1;
    var astray := false;
    ghost var whole := MatchedFrom(range.data, MachineOf(range, probabilities), base, 1, lastMatched);

    while node < 0x100 && !astray
      invariant range.Valid() && node > 0
      invariant (if astray then PlainFrom(range.data, MachineOf(range, probabilities), base, node)
                 else MatchedFrom(range.data, MachineOf(range, probabilities), base, node, matched)) == whole
      decreases 0x100 - node
    {
      var matchBit := matched / 128 % 2;
      matched := 2 * matched;
      var bit := CheckedBit(range, probabilities, Slot(Literals, base + 0x100 + matchBit * 0x100 + node));
      if bit.None? {
        return None;
      }
      node := 2 * node + bit.value;
      astray := matchBit != bit.value;
    }

    while node < 0x100
      invariant range.Valid() && node > 0
      invariant PlainFrom(range.data, MachineOf(range, probabilities), base, node) == whole
      decreases 0x100 - node
    {
      var bit := CheckedBit(range, probabilities, Slot(Literals, base + node));
      if bit.None? {
        return None;
      }
      node := 2 * node + bit.value;
    }
    return Some(node);
  }

  method Distance(range: RangeDecoder, probabilities: Probabilities, slotState: nat) returns (distance: Option<nat>)
    requires range.Valid() && slotState < LENGTH_STATES
    modifies range, probabilities
    ensures range.Valid()
    ensures Agrees(Lzma.Distance(range.data, old(MachineOf(range, probabilities)), slotState),
                   MachineOf(range, probabilities), distance)
  {
    hide Lzma.Tree, DecodeDirect, Lzma.ReverseTree;
    var slot := Tree(range, probabilities, Slots, slotState * 64, SLOT_BITS);
    if slot.None? {
      return None;
    }
    if slot.value < 4 {
      return slot;
    }

    var bits := slot.value / 2 - 1;
    var base := SlotBase(slot.value);
    if slot.value < END_SLOT_MODEL {
      SpecialSlotFits(slot.value);
      var low := ReverseTree(range, probabilities, Special, base - slot.value, bits);
      return if low.Some? then Some(base + low.value) else None;
    }

    var high := range.Direct(bits - ALIGN_BITS);
    if high.None? {
      return None;
    }
    var low := ReverseTree(range, probabilities, Align, 0, ALIGN_BITS);
    return if low.Some? then Some(base + high.value * 16 + low.value) else None;
  }

  /** What a turn of the loop leaves in the locals of `decompress`: history, state, and whether the end marker came. */
  type Turn = (History, nat, bool)

  function Before(m: Machine, history: History, state: nat): Progress {
    Progress(m, history, state, false)
  }

  predicate Follows(spec: Option<Progress>, m: Machine, turn: Option<Turn>) {
    if spec.None? then turn.None?
    else turn.Some? && spec == Some(Progress(m, turn.value.0, turn.value.1, turn.value.2))
  }

  method Literal(range: RangeDecoder, probabilities: Probabilities, props: Properties, history: History, state: nat)
    returns (turn: Option<Turn>)
    requires range.Valid() && props.Valid() && history.Valid() && state < STATES
    modifies range, probabilities
    ensures range.Valid()
    ensures Follows(DecodeLiteral(range.data, props, Before(old(MachineOf(range, probabilities)), history, state)),
                    MachineOf(range, probabilities), turn)
  {
    hide Lzma.Tree, MatchedFrom, LiteralContext;
    var base := LiteralContext(props, history.output) * LITERAL_CODER_SIZE;
    if base + LITERAL_CODER_SIZE > Size(Literals, probabilities.contexts) {
      return None;
    }

    var value;
    if state < LITERAL_STATES {
      value := Tree(range, probabilities, Literals, base, 8);
      value := if value.Some? then Some(0x100 + value.value) else None;
    } else {
      var matched := history.Back(0);
      if matched.None? {
        return None;
      }
      value := MatchedLiteral(range, probabilities, base, matched.value);
    }
    if value.None? {
      return None;
    }
    var output := history.output + [value.value % 256];
    return Some((history.(output := output), AfterLiteral(state), false));
  }

  method Copy(history: History, length: nat, size: nat) returns (copied: Option<History>)
    requires history.Valid() && |history.output| <= size
    ensures copied == Copied(history, length, size)
  {
    if history.repeats[0] + 1 > |history.output| {
      return None;
    }
    var count := if length + MIN_MATCH <= size - |history.output| then length + MIN_MATCH else size - |history.output|;
    var output := Push(history.output, history.repeats[0] + 1, count);
    return Some(history.(output := output));
  }

  method Match(range: RangeDecoder, probabilities: Probabilities, props: Properties, size: nat, history: History, state: nat)
    returns (turn: Option<Turn>)
    requires range.Valid() && props.Valid() && history.Valid() && state < STATES && |history.output| <= size
    modifies range, probabilities
    ensures range.Valid()
    ensures Follows(DecodeMatch(range.data, size, props, Before(old(MachineOf(range, probabilities)), history, state)),
                    MachineOf(range, probabilities), turn)
  {
    hide Lzma.Length, Lzma.Distance, Copied;
    PositionStateFits(props, history.output);
    var length := Length(range, probabilities, false, PositionState(props, history.output));
    if length.None? {
      return None;
    }
    var distance := Distance(range, probabilities, if length.value < LENGTH_STATES then length.value else LENGTH_STATES - 1);
    if distance.None? {
      return None;
    }
    var next := if state < LITERAL_STATES then 7 else 10;
    if distance.value == END_MARKER {
      return Some((history, next, true));
    }
    var copied := Copy(history.(repeats := [distance.value] + history.repeats[..3]), length.value, size);
    return if copied.Some? then Some((copied.value, next, false)) else None;
  }

  method Which(range: RangeDecoder, probabilities: Probabilities, state: nat, positionState: nat)
    returns (index: Option<Option<nat>>)
    requires range.Valid() && state < STATES && positionState < POSITION_STATES
    modifies range, probabilities
    ensures range.Valid()
    ensures Agrees(RepeatIndex(range.data, old(MachineOf(range, probabilities)), state, positionState),
                   MachineOf(range, probabilities), index)
  {
    hide Lzma.Bit;
    var first := Bit(range, probabilities, Slot(IsRepeat0, state));
    if first.None? {
      return None;
    }
    if first.value == 0 {
      var long := Bit(range, probabilities, Slot(IsRepeat0Long, state * POSITION_STATES + positionState));
      return if long.None? then None else if long.value == 0 then Some(None) else Some(Some(0));
    }

    var second := Bit(range, probabilities, Slot(IsRepeat1, state));
    if second.None? {
      return None;
    }
    if second.value == 0 {
      return Some(Some(1));
    }
    var third := Bit(range, probabilities, Slot(IsRepeat2, state));
    return if third.None? then None else Some(Some(if third.value == 0 then 2 else 3));
  }

  method Repeat(range: RangeDecoder, probabilities: Probabilities, props: Properties, size: nat, history: History, state: nat)
    returns (turn: Option<Turn>)
    requires range.Valid() && props.Valid() && history.Valid() && state < STATES && |history.output| <= size
    modifies range, probabilities
    ensures range.Valid()
    ensures Follows(DecodeRepeat(range.data, size, props, Before(old(MachineOf(range, probabilities)), history, state)),
                    MachineOf(range, probabilities), turn)
  {
    hide Lzma.Length, RepeatIndex, Copied;
    if history.output == [] {
      return None;
    }
    PositionStateFits(props, history.output);
    var positionState := PositionState(props, history.output);
    var index := Which(range, probabilities, state, positionState);
    if index.None? {
      return None;
    }
    if index.value.None? {
      var byte := history.Back(0);
      return if byte.None? then None
             else Some((history.(output := history.output + [byte.value]), if state < LITERAL_STATES then 9 else 11, false));
    }
    var length := Length(range, probabilities, true, positionState);
    if length.None? {
      return None;
    }
    var copied := Copy(history.(repeats := Promote(history.repeats, index.value.value)), length.value, size);
    return if copied.Some? then Some((copied.value, if state < LITERAL_STATES then 8 else 11, false)) else None;
  }

  method Packet(range: RangeDecoder, probabilities: Probabilities, props: Properties, size: nat, history: History, state: nat)
    returns (turn: Option<Turn>)
    requires range.Valid() && props.Valid() && history.Valid() && state < STATES && |history.output| < size
    modifies range, probabilities
    ensures range.Valid()
    ensures Follows(DecodePacket(range.data, size, props, Before(old(MachineOf(range, probabilities)), history, state)),
                    MachineOf(range, probabilities), turn)
  {
    hide Lzma.Bit, DecodeLiteral, DecodeMatch, DecodeRepeat;
    PositionStateFits(props, history.output);
    var isMatch := Bit(range, probabilities, Slot(IsMatch, state * POSITION_STATES + PositionState(props, history.output)));
    if isMatch.None? {
      return None;
    }
    if isMatch.value == 0 {
      turn := Literal(range, probabilities, props, history, state);
      return;
    }
    var isRepeat := Bit(range, probabilities, Slot(IsRepeat, state));
    if isRepeat.None? {
      return None;
    }
    if isRepeat.value == 1 {
      turn := Repeat(range, probabilities, props, size, history, state);
    } else {
      turn := Match(range, probabilities, props, size, history, state);
    }
  }

  method Decompress(source: seq<byte>, props: Properties, size: nat) returns (output: Option<seq<byte>>)
    ensures output == Lzma.Decompress(source, props, size)
  {
    hide DecodePacket;
    if !props.Valid() || Start(source).None? || size > MAX_UNPACKED {
      return None;
    }

    var range := new RangeDecoder(source);
    var probabilities := new Probabilities(props.Contexts());
    var history: History, state: nat, done: bool := EMPTY_HISTORY, 0, false;
    ghost var whole := DecodePackets(source, size, props, Progress(MachineOf(range, probabilities), history, state, false));

    while |history.output| < size && !done
      invariant range.Valid() && range.data == source && fresh(range) && fresh(probabilities)
      invariant history.Valid() && state < STATES && |history.output| <= size
      invariant DecodePackets(source, size, props, Progress(MachineOf(range, probabilities), history, state, done)) == whole
      decreases if done then 0 else 1, size - |history.output|
    {
      PacketGrows(source, size, props, Before(MachineOf(range, probabilities), history, state));
      var turn := Packet(range, probabilities, props, size, history, state);
      if turn.None? {
        return None;
      }
      history, state, done := turn.value.0, turn.value.1, turn.value.2;
    }
    return Some(history.output);
  }
}
