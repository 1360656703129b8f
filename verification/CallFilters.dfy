/**
  * The call and jump filters of MPRESS, MEW and ASPack. A packer turned relative operands into
  * absolute ones; each scan turns them back in place. The scans find the same operands before and
  * after, so the packer's filter and the scan undo each other exactly, in both orders.
  */
module CallFilters {
  import opened Bytes

  const CALL := 0xE8
  const JUMP := 0xE9
  const INDIRECT := 0xFF
  const LOAD_ADDRESS := 0x8D
  const MPRESS_TAIL := 0x1000
  const MEW_SPAN := 5
  const ASPACK_TAIL := 6
  const LARGEST_BUFFER := 0x8000_0000

  datatype Filter = Mpress(x64: bool) | Mew | Aspack

  /** Packing makes operands absolute, unpacking makes them relative again. */
  datatype Direction = Pack | Unpack

  // ----- operands

  /** The bits that are compared leave these two. */
  predicate RipIndirect(modrm: byte) {
    modrm == 0x15 || modrm == 0x17
  }

  /** lea reg, [rip + x]. */
  predicate RipAddress(modrm: byte) {
    modrm / 64 == 0 && modrm % 8 == 5
  }

  /** How far behind an opcode its operand stands, or zero where there is none. */
  function OperandAt(filter: Filter, bytes: seq<byte>): nat
    requires |bytes| >= 2
  {
    if bytes[0] == CALL || bytes[0] == JUMP then 1
    else if filter.Mpress? && filter.x64 && bytes[0] == INDIRECT && RipIndirect(bytes[1]) then 2
    else if filter.Mpress? && filter.x64 && bytes[0] == LOAD_ADDRESS && RipAddress(bytes[1]) then 2
    else 0
  }

  type Word = w: nat | w < U32

  function Reversed(bytes: seq<byte>): (r: seq<byte>)
    requires |bytes| == 4
    ensures |r| == 4
  {
    [bytes[3], bytes[2], bytes[1], bytes[0]]
  }

  function Signed(value: Word): int {
    if value < 0x8000_0000 then value else value - U32
  }

  function Unsigned(value: int): Word
    requires -0x8000_0000 <= value < 0x8000_0000
  {
    if value < 0 then value + U32 else value
  }

  /** MPRESS maps [-position, limit) onto itself: what fell off one end comes in at the other. */
  function MpressRelative(value: int, position: nat, limit: nat): int {
    if 0 <= value < limit then value - position
    else if value < 0 && value + position >= 0 then value + limit
    else value
  }

  function MpressAbsolute(value: int, position: nat, limit: nat): int {
    if value + position >= 0 && value + position < limit then value + position
    else if value + position >= limit && value < limit then value - limit
    else value
  }

  /** An operand at `position`, whose opcode stands at `opcode`. */
  function Convert(filter: Filter, direction: Direction, bytes: seq<byte>, opcode: nat, position: nat, limit: nat): (r: seq<byte>)
    requires |bytes| == 4 && position < LARGEST_BUFFER && limit <= LARGEST_BUFFER
    ensures |r| == 4
  {
    match filter
    case Mpress(_) =>
      var value := Signed(U32At(bytes, 0));
      U32Bytes(Unsigned(if direction.Pack? then MpressAbsolute(value, position, limit) else MpressRelative(value, position, limit)))
    case Mew =>
      if direction.Pack? then Reversed(U32Bytes((U32At(bytes, 0) + (opcode + 1)) % U32))
      else U32Bytes((U32At(Reversed(bytes), 0) + U32 - (opcode + 1) % U32) % U32)
    case Aspack =>
      if direction.Pack? then U32Bytes((U32At(bytes, 0) + opcode) % U32)
      else U32Bytes((U32At(bytes, 0) + U32 - opcode % U32) % U32)
  }

  function Opposite(direction: Direction): Direction {
    if direction.Pack? then Unpack else Pack
  }

  lemma WordRoundTrip(value: Word)
    ensures U32At(U32Bytes(value), 0) == value
  {
    U32RoundTrip(U32Bytes(value), 0, value);
  }

  lemma MpressUndoes(value: int, position: nat, limit: nat)
    requires -0x8000_0000 <= value < 0x8000_0000 && position < LARGEST_BUFFER && limit <= LARGEST_BUFFER
    ensures MpressRelative(MpressAbsolute(value, position, limit), position, limit) == value
    ensures MpressAbsolute(MpressRelative(value, position, limit), position, limit) == value
    ensures -0x8000_0000 <= MpressAbsolute(value, position, limit) < 0x8000_0000
    ensures -0x8000_0000 <= MpressRelative(value, position, limit) < 0x8000_0000
  {
  }

  lemma WrapUndoes(value: Word, shift: nat)
    ensures ((value + shift) % U32 + U32 - shift % U32) % U32 == value
    ensures ((value + U32 - shift % U32) % U32 + shift) % U32 == value
  {
  }

  lemma ReversedTwice(bytes: seq<byte>)
    requires |bytes| == 4
    ensures Reversed(Reversed(bytes)) == bytes
  {
  }

  lemma MpressConvertUndoes(x64: bool, direction: Direction, bytes: seq<byte>, opcode: nat, position: nat, limit: nat)
    requires |bytes| == 4 && position < LARGEST_BUFFER && limit <= LARGEST_BUFFER
    ensures var filter := Mpress(x64);
            Convert(filter, Opposite(direction), Convert(filter, direction, bytes, opcode, position, limit), opcode, position, limit)
            == bytes
  {
    hide U32At, U32Bytes;
    var value := Signed(U32At(bytes, 0));
    U32BytesOnly(bytes);
    MpressUndoes(value, position, limit);
    WordRoundTrip(Unsigned(MpressAbsolute(value, position, limit)));
    WordRoundTrip(Unsigned(MpressRelative(value, position, limit)));
  }

  lemma MewConvertUndoes(direction: Direction, bytes: seq<byte>, opcode: nat, position: nat, limit: nat)
    requires |bytes| == 4 && position < LARGEST_BUFFER && limit <= LARGEST_BUFFER
    ensures Convert(Mew, Opposite(direction), Convert(Mew, direction, bytes, opcode, position, limit), opcode, position, limit)
         == bytes
  {
    hide U32At, U32Bytes, Reversed;
    U32BytesOnly(bytes);
    ReversedTwice(bytes);
    if direction.Pack? {
      var absolute: Word := (U32At(bytes, 0) + (opcode + 1)) % U32;
      WrapUndoes(U32At(bytes, 0), opcode + 1);
      WordRoundTrip(absolute);
      ReversedTwice(U32Bytes(absolute));
    } else {
      var relative: Word := (U32At(Reversed(bytes), 0) + U32 - (opcode + 1) % U32) % U32;
      U32BytesOnly(Reversed(bytes));
      WrapUndoes(U32At(Reversed(bytes), 0), opcode + 1);
      WordRoundTrip(relative);
    }
  }

  lemma AspackConvertUndoes(direction: Direction, bytes: seq<byte>, opcode: nat, position: nat, limit: nat)
    requires |bytes| == 4 && position < LARGEST_BUFFER && limit <= LARGEST_BUFFER
    ensures Convert(Aspack, Opposite(direction), Convert(Aspack, direction, bytes, opcode, position, limit), opcode, position, limit)
         == bytes
  {
    hide U32At, U32Bytes;
    U32BytesOnly(bytes);
    WrapUndoes(U32At(bytes, 0), opcode);
    WordRoundTrip((U32At(bytes, 0) + opcode) % U32);
    WordRoundTrip((U32At(bytes, 0) + U32 - opcode % U32) % U32);
  }

  /** Converting back gives the operand that was there. */
  lemma ConvertUndoes(filter: Filter, direction: Direction, bytes: seq<byte>, opcode: nat, position: nat, limit: nat)
    requires |bytes| == 4 && position < LARGEST_BUFFER && limit <= LARGEST_BUFFER
    ensures Convert(filter, Opposite(direction), Convert(filter, direction, bytes, opcode, position, limit), opcode, position, limit)
         == bytes
  {
    hide Convert, Opposite;
    match filter {
      case Mpress(x64) => MpressConvertUndoes(x64, direction, bytes, opcode, position, limit);
      case Mew => MewConvertUndoes(direction, bytes, opcode, position, limit);
      case Aspack => AspackConvertUndoes(direction, bytes, opcode, position, limit);
    }
  }

  // ----- scans

  /** `bytes` is what the scan has not seen yet, the first of them at `at`. */
  predicate InReach(filter: Filter, bytes: seq<byte>, at: nat, limit: nat) {
    at + |bytes| <= LARGEST_BUFFER && (at < limit ==> limit + (if filter.Mpress? then 5 else 4) <= at + |bytes|)
  }

  function Scan(filter: Filter, direction: Direction, bytes: seq<byte>, at: nat, limit: nat): (r: seq<byte>)
    requires InReach(filter, bytes, at, limit)
    ensures |r| == |bytes|
    ensures bytes != [] ==> r[0] == bytes[0]
    decreases |bytes|
  {
    if at >= limit then bytes
    else
      var k := OperandAt(filter, bytes);
      if k == 0 then [bytes[0]] + Scan(filter, direction, bytes[1..], at + 1, limit)
      else
        bytes[..k] + Convert(filter, direction, bytes[k..k + 4], at, at + k, limit)
        + Scan(filter, direction, bytes[k + 4..], at + k + 4, limit)
  }

  /** Where the scan finds operands. */
  function Positions(filter: Filter, bytes: seq<byte>, at: nat, limit: nat): seq<nat>
    requires InReach(filter, bytes, at, limit)
    decreases |bytes|
  {
    if at >= limit then []
    else
      var k := OperandAt(filter, bytes);
      if k == 0 then Positions(filter, bytes[1..], at + 1, limit)
      else [at + k] + Positions(filter, bytes[k + 4..], at + k + 4, limit)
  }

  lemma ScanOver(filter: Filter, direction: Direction, bytes: seq<byte>, at: nat, limit: nat)
    requires InReach(filter, bytes, at, limit) && at < limit && OperandAt(filter, bytes) == 0
    ensures Scan(filter, direction, bytes, at, limit) == [bytes[0]] + Scan(filter, direction, bytes[1..], at + 1, limit)
    ensures Positions(filter, bytes, at, limit) == Positions(filter, bytes[1..], at + 1, limit)
  {
    hide OperandAt, Convert;
  }

  lemma ScanConverts(filter: Filter, direction: Direction, bytes: seq<byte>, at: nat, limit: nat, k: nat)
    requires InReach(filter, bytes, at, limit) && at < limit && OperandAt(filter, bytes) == k && k != 0
    ensures |bytes| >= k + 4 && InReach(filter, bytes[k + 4..], at + k + 4, limit)
    ensures Scan(filter, direction, bytes, at, limit)
         == bytes[..k] + Convert(filter, direction, bytes[k..k + 4], at, at + k, limit)
            + Scan(filter, direction, bytes[k + 4..], at + k + 4, limit)
    ensures Positions(filter, bytes, at, limit) == [at + k] + Positions(filter, bytes[k + 4..], at + k + 4, limit)
  {
    hide Convert;
  }

  lemma ThreeParts<T>(a: seq<T>, b: seq<T>, c: seq<T>)
    ensures (a + b + c)[..|a|] == a
    ensures (a + b + c)[|a|..|a| + |b|] == b
    ensures (a + b + c)[|a| + |b|..] == c
  {
  }

  /** Opcodes lie in front of their operands, so the operand found does not change with it. */
  lemma OperandStays(filter: Filter, bytes: seq<byte>, changed: seq<byte>, k: nat)
    requires |bytes| == |changed| >= 2 && OperandAt(filter, bytes) == k && k != 0 && changed[..k] == bytes[..k]
    ensures OperandAt(filter, changed) == k
  {
    assert changed[0] == changed[..k][0] == bytes[0];
    assert k == 2 ==> changed[1] == changed[..k][1] == bytes[1];
  }

  /** Converted operands hide no opcode and reveal none: scanning back undoes every one of them. */
  lemma {:induction false} ScanUndoes(filter: Filter, direction: Direction, bytes: seq<byte>, at: nat, limit: nat)
    requires InReach(filter, bytes, at, limit)
    ensures var r := Scan(filter, direction, bytes, at, limit);
            && Scan(filter, Opposite(direction), r, at, limit) == bytes
            && Positions(filter, r, at, limit) == Positions(filter, bytes, at, limit)
    decreases |bytes|
  {
    hide Scan, Positions, Convert, OperandAt;
    if at >= limit {
      ScanDone(filter, direction, bytes, at, limit);
      ScanDone(filter, Opposite(direction), bytes, at, limit);
    } else {
      var k := OperandAt(filter, bytes);
      if k == 0 {
        UndoesOver(filter, direction, bytes, at, limit);
        ScanUndoes(filter, direction, bytes[1..], at + 1, limit);
        assert bytes == [bytes[0]] + bytes[1..];
      } else {
        UndoesOperand(filter, direction, bytes, at, limit, k);
        ScanUndoes(filter, direction, bytes[k + 4..], at + k + 4, limit);
        assert bytes == bytes[..k] + bytes[k..k + 4] + bytes[k + 4..];
      }
    }
  }

  lemma ScanDone(filter: Filter, direction: Direction, bytes: seq<byte>, at: nat, limit: nat)
    requires InReach(filter, bytes, at, limit) && at >= limit
    ensures Scan(filter, direction, bytes, at, limit) == bytes && Positions(filter, bytes, at, limit) == []
  {
  }

  lemma UndoesOver(filter: Filter, direction: Direction, bytes: seq<byte>, at: nat, limit: nat)
    requires InReach(filter, bytes, at, limit) && at < limit && OperandAt(filter, bytes) == 0
    ensures var r, rest := Scan(filter, direction, bytes, at, limit), Scan(filter, direction, bytes[1..], at + 1, limit);
            && Scan(filter, Opposite(direction), r, at, limit) == [bytes[0]] + Scan(filter, Opposite(direction), rest, at + 1, limit)
            && Positions(filter, r, at, limit) == Positions(filter, rest, at + 1, limit)
            && Positions(filter, bytes, at, limit) == Positions(filter, bytes[1..], at + 1, limit)
  {
    var rest := Scan(filter, direction, bytes[1..], at + 1, limit);
    ScanOver(filter, direction, bytes, at, limit);
    var r := [bytes[0]] + rest;
    assert r[1..] == rest;
    assert OperandAt(filter, r) == 0;
    ScanOver(filter, Opposite(direction), r, at, limit);
  }

  lemma UndoesOperand(filter: Filter, direction: Direction, bytes: seq<byte>, at: nat, limit: nat, k: nat)
    requires InReach(filter, bytes, at, limit) && at < limit && OperandAt(filter, bytes) == k && k != 0
    ensures |bytes| >= k + 4 && InReach(filter, bytes[k + 4..], at + k + 4, limit)
    ensures var r, rest := Scan(filter, direction, bytes, at, limit), Scan(filter, direction, bytes[k + 4..], at + k + 4, limit);
            && Scan(filter, Opposite(direction), r, at, limit)
               == bytes[..k] + bytes[k..k + 4] + Scan(filter, Opposite(direction), rest, at + k + 4, limit)
            && Positions(filter, r, at, limit) == [at + k] + Positions(filter, rest, at + k + 4, limit)
            && Positions(filter, bytes, at, limit) == [at + k] + Positions(filter, bytes[k + 4..], at + k + 4, limit)
  {
    hide Scan, Positions, Convert;
    ScanConverts(filter, direction, bytes, at, limit, k);
    var operand := bytes[k..k + 4];
    var converted := Convert(filter, direction, operand, at, at + k, limit);
    var rest := Scan(filter, direction, bytes[k + 4..], at + k + 4, limit);
    var r := bytes[..k] + converted + rest;
    ThreeParts(bytes[..k], converted, rest);
    OperandStays(filter, bytes, r, k);
    ScanConverts(filter, Opposite(direction), r, at, limit, k);
    ConvertUndoes(filter, direction, operand, at, at + k, limit);
  }

  // ----- the three filters on whole buffers

  /** Where each scan stops looking for opcodes; MEW also takes the span the packer had filtered. */
  function Limit(filter: Filter, length: nat, span: nat): nat {
    match filter
    case Mpress(_) => if length >= MPRESS_TAIL then length - MPRESS_TAIL else 0
    case Mew =>
      var end := if span < length then span else length;
      if end >= MEW_SPAN then end - (MEW_SPAN - 1) else 0
    case Aspack => if length >= ASPACK_TAIL then length - ASPACK_TAIL else 0
  }

  lemma LimitInReach(filter: Filter, bytes: seq<byte>, span: nat)
    requires |bytes| <= LARGEST_BUFFER
    ensures InReach(filter, bytes, 0, Limit(filter, |bytes|, span))
  {
  }

  function Apply(filter: Filter, direction: Direction, bytes: seq<byte>, span: nat): (r: seq<byte>)
    requires |bytes| <= LARGEST_BUFFER
    ensures |r| == |bytes|
  {
    LimitInReach(filter, bytes, span);
    Scan(filter, direction, bytes, 0, Limit(filter, |bytes|, span))
  }

  /** On every buffer, either filter undoes the other. */
  lemma FiltersAreInverse(filter: Filter, bytes: seq<byte>, span: nat)
    requires |bytes| <= LARGEST_BUFFER
    ensures Apply(filter, Unpack, Apply(filter, Pack, bytes, span), span) == bytes
    ensures Apply(filter, Pack, Apply(filter, Unpack, bytes, span), span) == bytes
  {
    var limit := Limit(filter, |bytes|, span);
    LimitInReach(filter, bytes, span);
    ScanUndoes(filter, Pack, bytes, 0, limit);
    ScanUndoes(filter, Unpack, bytes, 0, limit);
  }

  /** So no two buffers filter to the same one. */
  lemma FiltersAreInjective(filter: Filter, direction: Direction, left: seq<byte>, right: seq<byte>, span: nat)
    requires |left| <= LARGEST_BUFFER && |right| <= LARGEST_BUFFER
    requires Apply(filter, direction, left, span) == Apply(filter, direction, right, span)
    ensures left == right
  {
    FiltersAreInverse(filter, left, span);
    FiltersAreInverse(filter, right, span);
  }

  // ----- the scans in place

  method WriteWord(buffer: array<byte>, at: nat, word: seq<byte>)
    requires |word| == 4 && at + 4 <= buffer.Length
    modifies buffer
    ensures buffer[..] == old(buffer[..at]) + word + old(buffer[at + 4..])
  {
    buffer[at], buffer[at + 1], buffer[at + 2], buffer[at + 3] := word[0], word[1], word[2], word[3];
  }

  /** What is left to scan, behind what is done. */
  ghost predicate Scanned(filter: Filter, before: seq<byte>, now: seq<byte>, at: nat, limit: nat) {
    && |now| == |before| && at <= |before|
    && now[at..] == before[at..]
    && InReach(filter, before, 0, limit) && InReach(filter, before[at..], at, limit)
    && Scan(filter, Unpack, before, 0, limit) == now[..at] + Scan(filter, Unpack, before[at..], at, limit)
  }

  lemma StepOver(filter: Filter, before: seq<byte>, now: seq<byte>, at: nat, limit: nat)
    requires Scanned(filter, before, now, at, limit) && at < limit && OperandAt(filter, now[at..]) == 0
    ensures Scanned(filter, before, now, at + 1, limit)
  {
    hide Scan, OperandAt;
    ScanOver(filter, Unpack, before[at..], at, limit);
    assert before[at..][1..] == before[at + 1..];
    assert now[at + 1..] == now[at..][1..];
    assert now[..at + 1] == now[..at] + [before[at..][0]] by { assert now[at] == now[at..][0]; }
  }

  lemma StepConverts(filter: Filter, before: seq<byte>, now: seq<byte>, next: seq<byte>, at: nat, limit: nat)
    requires Scanned(filter, before, now, at, limit) && at < limit && OperandAt(filter, now[at..]) != 0
    requires var k := OperandAt(filter, now[at..]);
             next == now[..at + k] + Convert(filter, Unpack, now[at + k..at + k + 4], at, at + k, limit) + now[at + k + 4..]
    ensures Scanned(filter, before, next, at + OperandAt(filter, now[at..]) + 4, limit)
  {
    hide Scan, Convert, OperandAt;
    var k := OperandAt(filter, now[at..]);
    ScanConverts(filter, Unpack, before[at..], at, limit, k);
    SameTail(before, now, at, k);
    var converted := Convert(filter, Unpack, now[at + k..at + k + 4], at, at + k, limit);
    ThreeParts(now[..at + k], converted, now[at + k + 4..]);
    assert next[..at + k + 4] == now[..at + k] + converted;
  }

  lemma SameTail(before: seq<byte>, now: seq<byte>, at: nat, k: nat)
    requires |now| == |before| && at + k + 4 <= |now| && now[at..] == before[at..]
    ensures before[at..][k..k + 4] == now[at + k..at + k + 4]
    ensures before[at..][k + 4..] == before[at + k + 4..] == now[at + k + 4..]
    ensures now[..at] + before[at..][..k] == now[..at + k]
  {
    assert now[at..][k..k + 4] == now[at + k..at + k + 4];
    assert now[at..][k + 4..] == now[at + k + 4..];
    assert now[..at] + now[at..][..k] == now[..at + k];
  }

  method MpressUnfilter(buffer: array<byte>, x64: bool)
    requires buffer.Length <= LARGEST_BUFFER
    modifies buffer
    ensures buffer[..] == Apply(Mpress(x64), Unpack, old(buffer[..]), 0)
  {
    hide Scan, Convert, InReach, U32At, U32Bytes, Signed, Unsigned, MpressRelative;
    ghost var before := buffer[..];
    var limit := if buffer.Length >= MPRESS_TAIL then buffer.Length - MPRESS_TAIL else 0;
    var at := 0;
    ScanStarts(Mpress(x64), before, 0);
    while at < limit
      invariant at <= buffer.Length && Scanned(Mpress(x64), before, buffer[..], at, limit)
      decreases buffer.Length - at
    {
      var modrm := buffer[at + 1];
      var operand;
      if buffer[at] == CALL || buffer[at] == JUMP {
        operand := at + 1;
      } else if x64 && buffer[at] == INDIRECT && RipIndirect(modrm) {
        operand := at + 2;
      } else if x64 && buffer[at] == LOAD_ADDRESS && RipAddress(modrm) {
        operand := at + 2;
      } else {
        StepOver(Mpress(x64), before, buffer[..], at, limit);
        at := at + 1;
        continue;
      }
      ghost var now := buffer[..];
      var word := buffer[operand..operand + 4];
      var value := Signed(U32At(word, 0));
      ConvertsMpress(x64, word, at, operand, limit);
      WriteWord(buffer, operand, U32Bytes(Unsigned(MpressRelative(value, operand, limit))));
      StepConverts(Mpress(x64), before, now, buffer[..], at, limit);
      at := operand + 4;
    }
    ScanEnds(Mpress(x64), before, buffer[..], at, limit);
  }

  lemma ConvertsMpress(x64: bool, word: seq<byte>, opcode: nat, position: nat, limit: nat)
    requires |word| == 4 && position < LARGEST_BUFFER && limit <= LARGEST_BUFFER
    ensures -0x8000_0000 <= MpressRelative(Signed(U32At(word, 0)), position, limit) < 0x8000_0000
    ensures Convert(Mpress(x64), Unpack, word, opcode, position, limit)
         == U32Bytes(Unsigned(MpressRelative(Signed(U32At(word, 0)), position, limit)))
  {
  }

  lemma ScanStarts(filter: Filter, before: seq<byte>, span: nat)
    requires |before| <= LARGEST_BUFFER
    ensures Scanned(filter, before, before, 0, Limit(filter, |before|, span))
  {
    LimitInReach(filter, before, span);
    assert before[0..] == before;
  }

  lemma ScanEnds(filter: Filter, before: seq<byte>, now: seq<byte>, at: nat, limit: nat)
    requires Scanned(filter, before, now, at, limit) && at >= limit
    ensures now == Scan(filter, Unpack, before, 0, limit)
  {
  }

  method MewUnfilter(buffer: array<byte>, span: nat)
    requires buffer.Length <= LARGEST_BUFFER
    modifies buffer
    ensures buffer[..] == Apply(Mew, Unpack, old(buffer[..]), span)
  {
    hide Scan, Convert, InReach;
    ghost var before := buffer[..];
    var end := if span < buffer.Length then span else buffer.Length;
    ghost var limit := Limit(Mew, buffer.Length, span);
    var at := 0;
    ScanStarts(Mew, before, span);
    while at + MEW_SPAN <= end
      invariant at <= buffer.Length && Scanned(Mew, before, buffer[..], at, limit)
      decreases buffer.Length - at
    {
      if buffer[at] != CALL && buffer[at] != JUMP {
        StepOver(Mew, before, buffer[..], at, limit);
        at := at + 1;
        continue;
      }
      ghost var now := buffer[..];
      var word := buffer[at + 1..at + 5];
      var stored := U32At(Reversed(word), 0);
      WriteWord(buffer, at + 1, U32Bytes((stored + U32 - (at + 1) % U32) % U32));
      ConvertsMew(word, at, limit);
      StepConverts(Mew, before, now, buffer[..], at, limit);
      at := at + MEW_SPAN;
    }
    ScanEnds(Mew, before, buffer[..], at, limit);
  }

  lemma ConvertsMew(word: seq<byte>, opcode: nat, limit: nat)
    requires |word| == 4 && opcode + 1 < LARGEST_BUFFER && limit <= LARGEST_BUFFER
    ensures Convert(Mew, Unpack, word, opcode, opcode + 1, limit)
         == U32Bytes((U32At(Reversed(word), 0) + U32 - (opcode + 1) % U32) % U32)
  {
  }

  /** ASPack counts down what remains instead of comparing positions. */
  method AspackUnfilter(buffer: array<byte>)
    requires buffer.Length <= LARGEST_BUFFER
    modifies buffer
    ensures buffer[..] == Apply(Aspack, Unpack, old(buffer[..]), 0)
  {
    hide Scan, Convert, InReach;
    ghost var before := buffer[..];
    ghost var limit := Limit(Aspack, buffer.Length, 0);
    var remaining := if buffer.Length >= ASPACK_TAIL then buffer.Length - ASPACK_TAIL else 0;
    var at := 0;
    ScanStarts(Aspack, before, 0);
    while remaining > 0
      invariant at <= buffer.Length && Scanned(Aspack, before, buffer[..], at, limit)
      invariant remaining == if at < limit then limit - at else 0
      decreases remaining
    {
      if buffer[at] != CALL && buffer[at] != JUMP {
        StepOver(Aspack, before, buffer[..], at, limit);
        at := at + 1;
        remaining := remaining - 1;
        continue;
      }
      ghost var now := buffer[..];
      var word := buffer[at + 1..at + 5];
      WriteWord(buffer, at + 1, U32Bytes((U32At(word, 0) + U32 - at % U32) % U32));
      ConvertsAspack(word, at, limit);
      StepConverts(Aspack, before, now, buffer[..], at, limit);
      at := at + 5;
      remaining := if remaining >= 5 then remaining - 5 else 0;
    }
    ScanEnds(Aspack, before, buffer[..], at, limit);
  }

  lemma ConvertsAspack(word: seq<byte>, opcode: nat, limit: nat)
    requires |word| == 4 && opcode + 1 < LARGEST_BUFFER && limit <= LARGEST_BUFFER
    ensures Convert(Aspack, Unpack, word, opcode, opcode + 1, limit) == U32Bytes((U32At(word, 0) + U32 - opcode % U32) % U32)
  {
  }
}
