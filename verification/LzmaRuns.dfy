/**
  * Runs of the LZMA decoder, turn by turn: what each turn does to the output, to the recent distances
  * and to the state, told by the kinds of packets it read and by nothing else.
  */
module LzmaRuns {
  import opened Wrappers
  import opened Bytes
  import opened RangeCoder
  import opened Lz
  import opened Lzma

  /** Where decoding starts. */
  function Beginning(data: seq<byte>, props: Properties): Option<Progress> {
    var coder :- Start(data);
    Some(Progress(Machine(coder, map[], props.Contexts()), EMPTY_HISTORY, 0, false))
  }

  /** The progress after `count` turns of the decoding loop. */
  function After(data: seq<byte>, size: nat, props: Properties, p: Progress, count: nat): Option<Progress>
    requires props.Valid() && p.Valid() && |p.history.output| <= size
    decreases count
  {
    if count == 0 then Some(p)
    else if p.done || |p.history.output| == size then None
    else
      PacketGrows(data, size, props, p);
      var next :- DecodePacket(data, size, props, p);
      After(data, size, props, next, count - 1)
  }

  /** Decompressing goes on from there. */
  lemma {:induction false} DecodingGoesOn(data: seq<byte>, size: nat, props: Properties, p: Progress, count: nat)
    requires props.Valid() && p.Valid() && |p.history.output| <= size && After(data, size, props, p, count).Some?
    ensures var later := After(data, size, props, p, count).value;
      && later.Valid() && |later.history.output| <= size
      && DecodePackets(data, size, props, p) == DecodePackets(data, size, props, later)
    decreases count
  {
    hide DecodePacket;
    if count > 0 {
      PacketGrows(data, size, props, p);
      DecodingGoesOn(data, size, props, DecodePacket(data, size, props, p).value, count - 1);
    }
  }

  lemma DecompressBegins(data: seq<byte>, props: Properties, size: nat)
    requires props.Valid() && Beginning(data, props).Some? && size <= MAX_UNPACKED
    ensures Decompress(data, props, size) == DecodePackets(data, size, props, Beginning(data, props).value)
  {
    hide DecodePackets;
  }

  // ----- what a turn reads

  datatype Read =
    | Plain(value: byte)
    | Short
    | Again(index: nat, length: nat)
    | Fresh(distance: nat, length: nat)

  /** The packet that a turn reads, before anything is done about it. */
  function ReadOf(data: seq<byte>, props: Properties, p: Progress): Option<Read>
    requires props.Valid() && p.Valid()
  {
    PositionStateFits(props, p.history.output);
    var positionState := PositionState(props, p.history.output);
    var (m, kind) :- DecodeKind(data, p.machine, p.state, positionState);
    match kind
    case LiteralKind =>
      var (_, value) :- LiteralValue(data, props, p.(machine := m));
      Some(Plain(value % 256))
    case RepeatKind =>
      var (m, index) :- RepeatIndex(data, m, p.state, positionState);
      if index.None? then Some(Short)
      else
        var (_, length) :- Length(data, m, true, positionState);
        Some(Again(index.value, length))
    case MatchKind =>
      var (m, length) :- Length(data, m, false, positionState);
      var (_, distance) :- Distance(data, m, if length < LENGTH_STATES then length else LENGTH_STATES - 1);
      Some(Fresh(distance, length))
  }

  // ----- the state

  /** How many literals stand at the end. */
  function LiteralsBehind(packets: seq<Read>): (r: nat)
    ensures r <= |packets|
  {
    if packets == [] || !packets[|packets| - 1].Plain? then 0 else 1 + LiteralsBehind(packets[..|packets| - 1])
  }

  /** Whether nothing or a literal stands in front of packet `i`. */
  predicate BehindLiteral(packets: seq<Read>, i: nat)
    requires i < |packets|
  {
    i == 0 || packets[i - 1].Plain?
  }

  /**
    * The state is told by the last packet that is not a literal, by what it stood behind, and by how
    * many literals came since. A short repeat behind another copy counts as a repeat.
    */
  function StateOf(packets: seq<Read>): nat {
    var since := LiteralsBehind(packets);
    if since == |packets| || since >= 3 then 0
    else
      var last := |packets| - 1 - since;
      var behind := BehindLiteral(packets, last);
      match packets[last]
      case Fresh(_, _) => if since == 2 then 1 else if since == 1 then 4 else if behind then 7 else 10
      case Short => if since == 2 then (if behind then 3 else 2) else if since == 1 then (if behind then 6 else 5) else if behind then 9 else 11
      case _ => if since == 2 then 2 else if since == 1 then 5 else if behind then 8 else 11
  }

  lemma OneMoreRead(packets: seq<Read>, read: Read)
    ensures read.Plain? ==> LiteralsBehind(packets + [read]) == 1 + LiteralsBehind(packets)
    ensures !read.Plain? ==> LiteralsBehind(packets + [read]) == 0
  {
    assert (packets + [read])[..|packets|] == packets;
  }

  lemma NoLiteralsBehind(packets: seq<Read>)
    ensures LiteralsBehind(packets) == 0 <==> packets == [] || !packets[|packets| - 1].Plain?
  {
  }

  /** Below 7 the last packet was a literal, or there was none. */
  lemma StateTellsLiterals(packets: seq<Read>)
    ensures StateOf(packets) < 12 && (StateOf(packets) < 7 <==> packets == [] || packets[|packets| - 1].Plain?)
  {
    NoLiteralsBehind(packets);
  }

  lemma StateGoesOn(packets: seq<Read>, read: Read)
    requires read.Plain?
    ensures StateOf(packets + [read]) == AfterLiteral(StateOf(packets))
  {
    OneMoreRead(packets, read);
    var more, since := packets + [read], LiteralsBehind(packets);
    if since < |packets| && since < 2 {
      var last := |packets| - 1 - since;
      assert more[last] == packets[last] && (last > 0 ==> more[last - 1] == packets[last - 1]);
    }
  }

  /** Each turn leaves the state that the packets so far, and the one it read, tell. */
  lemma TurnKeepsState(data: seq<byte>, size: nat, props: Properties, p: Progress, packets: seq<Read>)
    requires props.Valid() && p.Valid() && |p.history.output| < size && p.state == StateOf(packets)
    requires DecodePacket(data, size, props, p).Some?
    ensures ReadOf(data, props, p).Some?
    ensures DecodePacket(data, size, props, p).value.state == StateOf(packets + [ReadOf(data, props, p).value])
  {
    hide DecodeKind, LiteralValue, RepeatIndex, Length, Distance, Copied, PositionState, AfterLiteral, StateOf;
    PositionStateFits(props, p.history.output);
    var read := ReadOf(data, props, p).value;
    StateTellsLiterals(packets);
    if read.Plain? {
      StateGoesOn(packets, read);
    } else {
      StateOfCopy(packets, read);
    }
  }

  lemma StateOfCopy(packets: seq<Read>, read: Read)
    requires !read.Plain?
    ensures var behind := packets == [] || packets[|packets| - 1].Plain?;
      StateOf(packets + [read])
      == if read.Fresh? then (if behind then 7 else 10)
         else if read.Again? then (if behind then 8 else 11)
         else if behind then 9 else 11
  {
    OneMoreRead(packets, read);
    var more := packets + [read];
    assert more[|packets|] == read && (packets != [] ==> more[|packets| - 1] == packets[|packets| - 1]);
  }

  /** The packets read in `count` turns. */
  function Reads(data: seq<byte>, size: nat, props: Properties, p: Progress, count: nat): seq<Read>
    requires props.Valid() && p.Valid() && |p.history.output| <= size
    decreases count
  {
    if count == 0 || p.done || |p.history.output| == size then []
    else
      PacketGrows(data, size, props, p);
      var read, next := ReadOf(data, props, p), DecodePacket(data, size, props, p);
      if read.None? || next.None? then [] else [read.value] + Reads(data, size, props, next.value, count - 1)
  }

  lemma {:induction false} RunKeepsState(data: seq<byte>, size: nat, props: Properties, p: Progress, count: nat, before: seq<Read>)
    requires props.Valid() && p.Valid() && |p.history.output| <= size && p.state == StateOf(before)
    requires After(data, size, props, p, count).Some?
    ensures After(data, size, props, p, count).value.state == StateOf(before + Reads(data, size, props, p, count))
    decreases count
  {
    hide DecodePacket, ReadOf, StateOf;
    if count == 0 {
      assert before + [] == before;
    } else {
      var next := DecodePacket(data, size, props, p).value;
      PacketGrows(data, size, props, p);
      TurnKeepsState(data, size, props, p, before);
      var read := ReadOf(data, props, p).value;
      RunKeepsState(data, size, props, next, count - 1, before + [read]);
      assert before + [read] + Reads(data, size, props, next, count - 1)
          == before + ([read] + Reads(data, size, props, next, count - 1));
    }
  }

  /** On any data, after any number of turns, the state is the one the packets read tell. */
  lemma StateIsTold(data: seq<byte>, size: nat, props: Properties, count: nat)
    requires props.Valid() && Beginning(data, props).Some?
    requires After(data, size, props, Beginning(data, props).value, count).Some?
    ensures var begun := Beginning(data, props).value;
      After(data, size, props, begun, count).value.state == StateOf(Reads(data, size, props, begun, count))
  {
    hide After, Reads, Start;
    var begun := Beginning(data, props).value;
    RunKeepsState(data, size, props, begun, count, []);
    assert [] + Reads(data, size, props, begun, count) == Reads(data, size, props, begun, count);
  }

  // ----- the output and the recent distances

  /** `count` more bytes, each the one `back` places before it. */
  predicate CopiedBack(before: seq<byte>, after: seq<byte>, back: nat, count: nat) {
    && 1 <= back <= |before| && |after| == |before| + count && after[..|before|] == before
    && forall k :: |before| <= k < |after| ==> after[k] == after[k - back]
  }

  /** What is used of a length: two more than was read, or what there is room for. */
  function Room(length: nat, have: nat, size: nat): nat {
    if length + 2 <= size - have then length + 2 else if have <= size then size - have else 0
  }

  lemma CopyIsBack(h: History, length: nat, size: nat)
    requires h.Valid() && |h.output| <= size && Copied(h, length, size).Some?
    ensures Copied(h, length, size).value.repeats == h.repeats
    ensures CopiedBack(h.output, Copied(h, length, size).value.output, h.repeats[0] + 1, Room(length, |h.output|, size))
  {
    hide Extend;
    ExtendIsPeriodic(h.output, h.repeats[0] + 1, Room(length, |h.output|, size));
  }

  /** A used distance comes to the front; the ones before it move back by one place. */
  lemma UsedComesFirst(a: nat, b: nat, c: nat, d: nat)
    ensures Promote([a, b, c, d], 0) == [a, b, c, d] && Promote([a, b, c, d], 1) == [b, a, c, d]
    ensures Promote([a, b, c, d], 2) == [c, a, b, d] && Promote([a, b, c, d], 3) == [d, a, b, c]
  {
  }

  /** What a packet comes to, in terms of what was read. */
  ghost predicate DoesWhatItSays(before: History, read: Read, after: History, size: nat)
    requires before.Valid()
  {
    var r := before.repeats;
    match read
    case Plain(value) => after == History(before.output + [value], r)
    case Short => after.repeats == r && CopiedBack(before.output, after.output, r[0] + 1, 1)
    case Again(index, length) =>
      && after.repeats == (if index == 0 then r
                           else if index == 1 then [r[1], r[0], r[2], r[3]]
                           else if index == 2 then [r[2], r[0], r[1], r[3]]
                           else [r[3], r[0], r[1], r[2]])
      && index < 4 && CopiedBack(before.output, after.output, r[index] + 1, Room(length, |before.output|, size))
    case Fresh(distance, length) =>
      && after.repeats == [distance, r[0], r[1], r[2]]
      && CopiedBack(before.output, after.output, distance + 1, Room(length, |before.output|, size))
  }

  /** Each turn does what the packet it read says, except that the end marker ends the stream. */
  lemma TurnDoesWhatItSays(data: seq<byte>, size: nat, props: Properties, p: Progress)
    requires props.Valid() && p.Valid() && |p.history.output| < size && DecodePacket(data, size, props, p).Some?
    ensures ReadOf(data, props, p).Some?
    ensures var next, read := DecodePacket(data, size, props, p).value, ReadOf(data, props, p).value;
      && (next.done <==> read.Fresh? && read.distance == 0xFFFF_FFFF)
      && if next.done then next.history == p.history else DoesWhatItSays(p.history, read, next.history, size)
  {
    hide DecodeKind, LiteralValue, RepeatIndex, Length, Distance, Copied, PositionState, AfterLiteral, CopiedBack, Promote;
    PositionStateFits(props, p.history.output);
    var read, r := ReadOf(data, props, p).value, p.history.repeats;
    assert r == [r[0], r[1], r[2], r[3]];
    UsedComesFirst(r[0], r[1], r[2], r[3]);
    var used := UsedBefore(p.history, read);
    if read.Again? || read.Fresh? {
      if Copied(used, read.length, size).Some? {
        CopyIsBack(used, read.length, size);
      }
    } else if read.Short? {
      OneByteBack(p.history);
    }
  }

  function UsedBefore(h: History, read: Read): History
    requires h.Valid()
  {
    match read
    case Again(index, _) => if index < 4 then h.(repeats := Promote(h.repeats, index)) else h
    case Fresh(distance, _) => h.(repeats := [distance] + h.repeats[..3])
    case _ => h
  }

  lemma OneByteBack(h: History)
    requires h.Valid()
    ensures h.Back(0).Some? ==> CopiedBack(h.output, h.output + [h.Back(0).value], h.repeats[0] + 1, 1)
  {
  }

  // ----- contexts

  lemma {:induction false} LowBitsAreRemainder(x: nat, n: nat)
    ensures LowBits(x, n) == x % Pow2(n)
    decreases n
  {
    if n > 0 {
      LowBitsAreRemainder(x / 2, n - 1);
      RemainderOfDouble(x, Pow2(n - 1));
    }
  }

  lemma RemainderOfDouble(x: nat, m: nat)
    requires m > 0
    ensures x % (2 * m) == 2 * (x / 2 % m) + x % 2
  {
    var half := x / 2;
    assert x == 2 * (m * (half / m) + half % m) + x % 2;
    assert x == (2 * m) * (half / m) + (2 * (half % m) + x % 2);
    RemainderIs(x, 2 * m, half / m, 2 * (half % m) + x % 2);
  }

  lemma {:induction false} HighBitsAreQuotient(x: nat, drop: nat)
    ensures HighBits(x, drop) == x / Pow2(drop)
    decreases drop
  {
    if drop > 0 {
      HighBitsAreQuotient(x / 2, drop - 1);
      QuotientOfHalf(x, Pow2(drop - 1));
    }
  }

  lemma QuotientOfHalf(x: nat, m: nat)
    requires m > 0
    ensures x / 2 / m == x / (2 * m)
  {
    var half := x / 2;
    assert x == (2 * m) * (half / m) + (2 * (half % m) + x % 2);
    RemainderIs(x, 2 * m, half / m, 2 * (half % m) + x % 2);
  }

  lemma {:induction false} ShiftIsProduct(x: nat, n: nat)
    ensures Shift(x, n) == x * Pow2(n)
  {
    if n > 0 {
      ShiftIsProduct(x, n - 1);
    }
  }

  /** Contexts count positions from the output's start, and take the top bits of the byte before. */
  lemma ContextsAre(props: Properties, output: seq<byte>)
    requires props.Valid()
    ensures PositionState(props, output) == |output| % Pow2(props.position)
    ensures LiteralContext(props, output)
         == |output| % Pow2(props.literalPosition) * Pow2(props.literalContext)
            + (if output == [] then 0 else output[|output| - 1]) / Pow2(8 - props.literalContext)
  {
    hide LowBits, HighBits, Shift, Pow2;
    LowBitsAreRemainder(|output|, props.position);
    LowBitsAreRemainder(|output|, props.literalPosition);
    ShiftIsProduct(LowBits(|output|, props.literalPosition), props.literalContext);
    HighBitsAreQuotient(if output == [] then 0 else output[|output| - 1], 8 - props.literalContext);
  }
}
