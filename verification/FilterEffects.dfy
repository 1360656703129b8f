/**
  * What the filters' scans change: told by the opcodes in a buffer, in plain numbers, and not by a scan.
  */
module FilterEffects {
  import opened Bytes
  import opened CallFilters

  // ----- opcodes

  /** E8 and E9 in every filter; in MPRESS for x64 also FF with 15 or 17, and 8D with one of eight bytes. */
  predicate IsOpcode(filter: Filter, bytes: seq<byte>, at: nat) {
    at + 2 <= |bytes| && (IsNear(bytes, at) || (filter == Mpress(true) && IsPair(bytes[at], bytes[at + 1])))
  }

  predicate IsNear(bytes: seq<byte>, at: nat)
    requires at < |bytes|
  {
    bytes[at] == 0xE8 || bytes[at] == 0xE9
  }

  predicate IsPair(first: byte, second: byte) {
    (first == 0xFF && second in {0x15, 0x17}) || (first == 0x8D && second in {0x05, 0x0D, 0x15, 0x1D, 0x25, 0x2D, 0x35, 0x3D})
  }

  /** How many bytes an opcode has in front of its four-byte operand. */
  function Lead(bytes: seq<byte>, at: nat): (r: nat)
    requires at < |bytes|
    ensures 1 <= r <= 2
  {
    if IsNear(bytes, at) then 1 else 2
  }

  /** The last 4096 bytes of a buffer have no opcodes for MPRESS; MEW's operands end within the span. */
  predicate Looks(filter: Filter, length: nat, span: nat, at: nat) {
    match filter
    case Mpress(_) => at + 4096 < length
    case Mew => at + 5 <= length && at + 5 <= span
    case Aspack => at + 6 < length
  }

  lemma LooksIff(filter: Filter, length: nat, span: nat, at: nat)
    ensures Looks(filter, length, span, at) <==> at < Limit(filter, length, span)
  {
  }

  lemma OperandIff(filter: Filter, bytes: seq<byte>, at: nat)
    requires at + 2 <= |bytes|
    ensures OperandAt(filter, bytes[at..]) == if IsOpcode(filter, bytes, at) then Lead(bytes, at) else 0
  {
    assert bytes[at..][0] == bytes[at] && bytes[at..][1] == bytes[at + 1];
    LoadBytes(bytes[at + 1]);
  }

  lemma LoadBytes(second: byte)
    ensures RipAddress(second) <==> second in {0x05, 0x0D, 0x15, 0x1D, 0x25, 0x2D, 0x35, 0x3D}
  {
    if second / 64 == 0 && second % 8 == 5 {
      var k := second / 8;
      assert second == 8 * k + 5 && k < 8;
    }
  }

  // ----- operands

  /** What an operand's four bytes become, as a number, when they are made relative again. */
  function Relative(filter: Filter, bytes: seq<byte>, opcode: nat, length: nat): nat
    requires opcode < |bytes| && opcode + Lead(bytes, opcode) + 4 <= |bytes| && opcode < 0x1_0000_0000
    requires filter.Mpress? ==> 4096 <= length
  {
    var at := opcode + Lead(bytes, opcode);
    match filter
    case Mpress(_) =>
      var value := U32At(bytes, at);
      if value < length - 4096 then (value + 0x1_0000_0000 - at % 0x1_0000_0000) % 0x1_0000_0000
      else if value + at >= 0x1_0000_0000 then (value + (length - 4096)) % 0x1_0000_0000
      else value
    case Mew =>
      var value := bytes[at + 3] as int + 0x100 * bytes[at + 2] as int + 0x1_0000 * bytes[at + 1] as int + 0x100_0000 * bytes[at] as int;
      (value + 0xFFFF_FFFF - opcode) % 0x1_0000_0000
    case Aspack => (U32At(bytes, at) + 0x1_0000_0000 - opcode) % 0x1_0000_0000
  }

  lemma ConvertIs(filter: Filter, bytes: seq<byte>, opcode: nat, k: nat, limit: nat, length: nat)
    requires opcode + k + 4 <= |bytes| <= LARGEST_BUFFER && k == Lead(bytes, opcode)
    requires limit <= LARGEST_BUFFER && (filter.Mpress? ==> length == limit + 4096)
    ensures U32At(Convert(filter, Unpack, bytes[opcode + k..opcode + k + 4], opcode, opcode + k, limit), 0)
         == Relative(filter, bytes, opcode, length)
  {
    hide U32Bytes, U32At, Lead, Reversed, MpressRelative, Signed, Unsigned;
    var at := opcode + k;
    var word := bytes[at..at + 4];
    WordOfPart(bytes, at);
    match filter {
      case Mpress(_) => MpressIs(U32At(word, 0), at, limit);
      case Mew =>
        HighestByteFirst(word);
        SubtractedIs(U32At(Reversed(word), 0), opcode + 1);
      case Aspack => SubtractedIs(U32At(word, 0), opcode);
    }
  }

  lemma SubtractedIs(value: Word, less: nat)
    requires less < U32
    ensures U32At(U32Bytes((value + U32 - less % U32) % U32), 0) == (value + U32 - less) % U32
  {
    hide U32Bytes, U32At;
    WordRoundTrip((value + U32 - less % U32) % U32);
  }

  lemma WordOfPart(bytes: seq<byte>, at: nat)
    requires at + 4 <= |bytes|
    ensures var word := bytes[at..at + 4];
      && word[0] == bytes[at] && word[1] == bytes[at + 1] && word[2] == bytes[at + 2] && word[3] == bytes[at + 3]
      && U32At(word, 0) == U32At(bytes, at)
  {
  }

  lemma HighestByteFirst(word: seq<byte>)
    requires |word| == 4
    ensures U32At(Reversed(word), 0)
         == word[3] as int + 0x100 * word[2] as int + 0x1_0000 * word[1] as int + 0x100_0000 * word[0] as int
  {
  }

  lemma MpressIs(value: Word, at: nat, limit: nat)
    requires at < LARGEST_BUFFER && limit <= LARGEST_BUFFER
    ensures var relative := MpressRelative(Signed(value), at, limit);
      && -0x8000_0000 <= relative < 0x8000_0000
      && U32At(U32Bytes(Unsigned(relative)), 0)
         == if value < limit then (value + U32 - at % U32) % U32 else if value + at >= U32 then (value + limit) % U32 else value
  {
    hide U32Bytes, U32At;
    WordRoundTrip(Unsigned(MpressRelative(Signed(value), at, limit)));
  }

  // ----- the whole buffer

  /**
    * The opcodes a scan sees from `from` on: those it looks at, none inside the operand of another, and
    * no other opcode but inside such an operand.
    */
  ghost predicate AreSeen(filter: Filter, bytes: seq<byte>, opcodes: seq<nat>, from: nat, limit: nat) {
    AreOpcodes(filter, bytes, opcodes, from, limit) && AreApart(bytes, opcodes) && AreAll(filter, bytes, opcodes, from, limit)
  }

  ghost predicate AreOpcodes(filter: Filter, bytes: seq<byte>, opcodes: seq<nat>, from: nat, limit: nat) {
    forall o :: o in opcodes ==> from <= o < limit && IsOpcode(filter, bytes, o)
  }

  /** One opcode's operand ends before the other opcode. */
  predicate Precedes(bytes: seq<byte>, opcode: nat, next: nat) {
    opcode < |bytes| && opcode + Lead(bytes, opcode) + 4 <= next
  }

  ghost predicate AreApart(bytes: seq<byte>, opcodes: seq<nat>) {
    forall i, j :: 0 <= i < j < |opcodes| ==> Precedes(bytes, opcodes[i], opcodes[j])
  }

  ghost predicate AreAll(filter: Filter, bytes: seq<byte>, opcodes: seq<nat>, from: nat, limit: nat) {
    forall at: nat :: from <= at < limit && IsOpcode(filter, bytes, at) ==> exists o :: o in opcodes && Covers(bytes, o, at)
  }

  /** The byte belongs to the opcode or to its operand. */
  predicate Covers(bytes: seq<byte>, opcode: nat, at: nat) {
    opcode < |bytes| && opcode <= at < opcode + Lead(bytes, opcode) + 4
  }

  predicate InOperand(bytes: seq<byte>, opcode: nat, at: nat) {
    opcode < |bytes| && opcode + Lead(bytes, opcode) <= at < opcode + Lead(bytes, opcode) + 4
  }

  /** `now` is `bytes` from `from` on, but with the operands of these opcodes made relative. */
  ghost predicate AreRelative(
      filter: Filter, bytes: seq<byte>, now: seq<byte>, opcodes: seq<nat>, from: nat, length: nat)
  {
    && |now| == |bytes| && (filter.Mpress? && opcodes != [] ==> 4096 <= length)
    && (forall o :: o in opcodes ==> o < |bytes| && IsRelative(filter, bytes, now, o, length))
    && forall at :: from <= at < |bytes| && now[at] != bytes[at] ==> exists o :: o in opcodes && InOperand(bytes, o, at)
  }

  ghost predicate IsRelative(filter: Filter, bytes: seq<byte>, now: seq<byte>, opcode: nat, length: nat)
    requires opcode < |bytes| && (filter.Mpress? ==> 4096 <= length)
  {
    && opcode + Lead(bytes, opcode) + 4 <= |bytes| == |now| && opcode < 0x1_0000_0000
    && U32At(now, opcode + Lead(bytes, opcode)) == Relative(filter, bytes, opcode, length)
  }

  lemma {:induction false} ScanTells(filter: Filter, bytes: seq<byte>, from: nat, limit: nat, length: nat) returns (opcodes: seq<nat>)
    requires from <= |bytes| <= LARGEST_BUFFER && InReach(filter, bytes[from..], from, limit)
    requires filter.Mpress? && from < limit ==> length == limit + 4096
    ensures AreSeen(filter, bytes, opcodes, from, limit)
    ensures AreRelative(filter, bytes, bytes[..from] + Scan(filter, Unpack, bytes[from..], from, limit), opcodes, from, length)
    decreases |bytes| - from
  {
    hide Scan, Convert, OperandAt, Relative, U32At, AreSeen, AreRelative, IsOpcode, Lead;
    if from >= limit {
      opcodes := [];
      ScanDone(filter, Unpack, bytes[from..], from, limit);
      assert bytes[..from] + bytes[from..] == bytes;
      NothingSeen(filter, bytes, from, limit, length);
    } else {
      OperandIff(filter, bytes, from);
      var k := OperandAt(filter, bytes[from..]);
      if k == 0 {
        GoesOver(filter, bytes, from, limit);
        opcodes := ScanTells(filter, bytes, from + 1, limit, length);
        SeenOver(filter, bytes, bytes[..from] + Scan(filter, Unpack, bytes[from..], from, limit), opcodes, from, limit, length);
      } else {
        var word, now := GoesOn(filter, bytes, from, limit, k, length);
        opcodes := ScanTells(filter, bytes, from + k + 4, limit, length);
        SeenFirst(filter, bytes, opcodes, from, limit);
        SeenAreBehind(filter, bytes, opcodes, from + k + 4, limit);
        RelativeFirst(filter, bytes, word, now, opcodes, from, length);
        opcodes := [from] + opcodes;
      }
    }
  }

  lemma GoesOver(filter: Filter, bytes: seq<byte>, from: nat, limit: nat)
    requires from < limit && from <= |bytes| && InReach(filter, bytes[from..], from, limit) && OperandAt(filter, bytes[from..]) == 0
    ensures InReach(filter, bytes[from + 1..], from + 1, limit)
    ensures bytes[..from] + Scan(filter, Unpack, bytes[from..], from, limit)
         == bytes[..from + 1] + Scan(filter, Unpack, bytes[from + 1..], from + 1, limit)
  {
    hide Scan, OperandAt;
    ScanOver(filter, Unpack, bytes[from..], from, limit);
    assert bytes[from..][1..] == bytes[from + 1..];
    assert bytes[..from + 1] == bytes[..from] + [bytes[from..][0]];
  }

  lemma GoesOn(filter: Filter, bytes: seq<byte>, from: nat, limit: nat, k: nat, length: nat) returns (word: seq<byte>, now: seq<byte>)
    requires from < limit && from <= |bytes| <= LARGEST_BUFFER && InReach(filter, bytes[from..], from, limit)
    requires OperandAt(filter, bytes[from..]) == k != 0 && k == Lead(bytes, from)
    requires filter.Mpress? ==> length == limit + 4096
    ensures from + k + 4 <= |bytes| && InReach(filter, bytes[from + k + 4..], from + k + 4, limit)
    ensures now == Scan(filter, Unpack, bytes[from + k + 4..], from + k + 4, limit) && |word| == 4
    ensures bytes[..from] + Scan(filter, Unpack, bytes[from..], from, limit) == bytes[..from + k] + word + now
    ensures U32At(word, 0) == Relative(filter, bytes, from, length)
  {
    hide Scan, OperandAt, Convert, Lead, Relative, U32At;
    var rest := bytes[from..];
    ScanConverts(filter, Unpack, rest, from, limit, k);
    assert rest[k + 4..] == bytes[from + k + 4..];
    assert rest[k..k + 4] == bytes[from + k..from + k + 4];
    assert bytes[..from + k] == bytes[..from] + rest[..k];
    word := Convert(filter, Unpack, bytes[from + k..from + k + 4], from, from + k, limit);
    now := Scan(filter, Unpack, bytes[from + k + 4..], from + k + 4, limit);
    ConvertIs(filter, bytes, from, k, limit, length);
  }

  lemma NothingSeen(filter: Filter, bytes: seq<byte>, from: nat, limit: nat, length: nat)
    requires from >= limit
    ensures AreSeen(filter, bytes, [], from, limit) && AreRelative(filter, bytes, bytes, [], from, length)
  {
  }

  lemma SeenOver(filter: Filter, bytes: seq<byte>, now: seq<byte>, opcodes: seq<nat>, from: nat, limit: nat, length: nat)
    requires from < |bytes| == |now| && !IsOpcode(filter, bytes, from) && now[from] == bytes[from]
    requires AreSeen(filter, bytes, opcodes, from + 1, limit) && AreRelative(filter, bytes, now, opcodes, from + 1, length)
    ensures AreSeen(filter, bytes, opcodes, from, limit) && AreRelative(filter, bytes, now, opcodes, from, length)
  {
    hide IsRelative, IsOpcode, InOperand, Covers, Lead;
  }

  lemma SeenFirst(filter: Filter, bytes: seq<byte>, later: seq<nat>, from: nat, limit: nat)
    requires from < limit && IsOpcode(filter, bytes, from) && AreSeen(filter, bytes, later, from + Lead(bytes, from) + 4, limit)
    ensures AreSeen(filter, bytes, [from] + later, from, limit)
  {
    hide Lead, AreApart, AreAll, IsOpcode;
    OpcodeIsThere(filter, bytes, from);
    ApartFirst(filter, bytes, later, from, limit);
    AllWithFirst(filter, bytes, later, from, limit);
  }

  lemma OpcodeIsThere(filter: Filter, bytes: seq<byte>, at: nat)
    requires IsOpcode(filter, bytes, at)
    ensures at + 2 <= |bytes|
  {
  }

  lemma ApartFirst(filter: Filter, bytes: seq<byte>, later: seq<nat>, from: nat, limit: nat)
    requires from < |bytes| && AreOpcodes(filter, bytes, later, from + Lead(bytes, from) + 4, limit) && AreApart(bytes, later)
    ensures AreApart(bytes, [from] + later)
  {
    hide Lead, IsOpcode;
    var opcodes := [from] + later;
    forall i, j | 0 <= i < j < |opcodes|
      ensures Precedes(bytes, opcodes[i], opcodes[j])
    {
      assert opcodes[j] == later[j - 1] && later[j - 1] in later;
      if i > 0 {
        assert opcodes[i] == later[i - 1] && Precedes(bytes, later[i - 1], later[j - 1]);
      }
    }
  }

  lemma AllWithFirst(filter: Filter, bytes: seq<byte>, later: seq<nat>, from: nat, limit: nat)
    requires from < |bytes| && AreAll(filter, bytes, later, from + Lead(bytes, from) + 4, limit)
    ensures AreAll(filter, bytes, [from] + later, from, limit)
  {
    hide Lead, IsOpcode;
    forall at: nat | from <= at < limit && IsOpcode(filter, bytes, at)
      ensures exists o :: o in [from] + later && Covers(bytes, o, at)
    {
      if at < from + Lead(bytes, from) + 4 {
        assert from in [from] + later && Covers(bytes, from, at);
      } else {
        var o :| o in later && Covers(bytes, o, at);
        assert o in [from] + later;
      }
    }
  }

  lemma SeenAreBehind(filter: Filter, bytes: seq<byte>, opcodes: seq<nat>, from: nat, limit: nat)
    requires AreSeen(filter, bytes, opcodes, from, limit)
    ensures forall o :: o in opcodes ==> from <= o
  {
    hide AreApart, AreAll, IsOpcode;
  }

  lemma RelativeFirst(filter: Filter, bytes: seq<byte>, word: seq<byte>, rest: seq<byte>, later: seq<nat>, from: nat, length: nat)
    requires |word| == 4 && from < |bytes| <= LARGEST_BUFFER && from + Lead(bytes, from) + 4 + |rest| == |bytes|
    requires filter.Mpress? ==> 4096 <= length
    requires U32At(word, 0) == Relative(filter, bytes, from, length)
    requires var end := from + Lead(bytes, from) + 4;
      && AreRelative(filter, bytes, bytes[..end] + rest, later, end, length) && forall o :: o in later ==> end <= o
    ensures AreRelative(filter, bytes, bytes[..from + Lead(bytes, from)] + word + rest, [from] + later, from, length)
  {
    hide Relative, Lead;
    var at := from + Lead(bytes, from);
    var before, now := bytes[..at + 4] + rest, bytes[..at] + word + rest;
    forall i | at + 4 <= i < |bytes|
      ensures now[i] == before[i]
    {
    }
    assert now[at] == word[0] && now[at + 1] == word[1] && now[at + 2] == word[2] && now[at + 3] == word[3];
    assert IsRelative(filter, bytes, now, from, length);
    forall o | o in later
      ensures IsRelative(filter, bytes, now, o, length)
    {
      assert IsRelative(filter, bytes, before, o, length);
    }
    forall i | from <= i < |bytes| && now[i] != bytes[i]
      ensures exists o :: o in [from] + later && InOperand(bytes, o, i)
    {
      if i < at + 4 {
        assert from in [from] + later && InOperand(bytes, from, i);
      } else {
        var o :| o in later && InOperand(bytes, o, i);
        assert o in [from] + later;
      }
    }
  }

  /** On every buffer, the operands of the opcodes seen become relative, and no other byte changes. */
  lemma OnlyOperandsChange(filter: Filter, bytes: seq<byte>, span: nat) returns (opcodes: seq<nat>)
    requires |bytes| <= LARGEST_BUFFER
    ensures forall o :: o in opcodes ==> IsOpcode(filter, bytes, o) && Looks(filter, |bytes|, span, o)
    ensures AreApart(bytes, opcodes)
    ensures forall at: nat :: IsOpcode(filter, bytes, at) && Looks(filter, |bytes|, span, at) ==>
      exists o :: o in opcodes && Covers(bytes, o, at)
    ensures AreRelative(filter, bytes, Apply(filter, Unpack, bytes, span), opcodes, 0, |bytes|)
  {
    hide Scan, IsOpcode, Lead, Looks, AreRelative, Limit, AreApart, Covers;
    var limit := Limit(filter, |bytes|, span);
    LimitInReach(filter, bytes, span);
    MpressLimit(filter, |bytes|, span);
    assert bytes[0..] == bytes;
    opcodes := ScanTells(filter, bytes, 0, limit, |bytes|);
    assert bytes[..0] + Apply(filter, Unpack, bytes, span) == Apply(filter, Unpack, bytes, span);
    forall at: nat
      ensures Looks(filter, |bytes|, span, at) <==> at < limit
    {
      LooksIff(filter, |bytes|, span, at);
    }
  }

  lemma MpressLimit(filter: Filter, length: nat, span: nat)
    ensures filter.Mpress? && Limit(filter, length, span) > 0 ==> length == Limit(filter, length, span) + 4096
  {
  }
}
