/**
  * The packers' own forms of a relocation table: streams of distances between fixups. Decoding one,
  * building page blocks and reading those back gives the fixups that went in.
  */
module RelocationStreams {
  import opened Wrappers
  import opened Bytes
  import opened Relocations

  /** Fixup positions in order, none twice. */
  predicate Rising(positions: seq<nat>) {
    forall i, j :: 0 <= i < j < |positions| ==> positions[i] < positions[j]
  }

  // ----- UPX

  const UPX_LIMIT := 0x40_0000
  const UPX_ORIGIN := -4
  const LONG_DELTA := 0xF0

  /** The distance at `at` and where the next one starts; a zero byte in front ends the stream. */
  function UpxDelta(bytes: seq<byte>, at: nat): Option<(nat, nat)> {
    if at >= |bytes| then None
    else
      var lead := bytes[at];
      if lead < LONG_DELTA then Some((lead, at + 1))
      else if at + 3 > |bytes| then None
      else if lead == LONG_DELTA && bytes[at + 1] == 0 && bytes[at + 2] == 0 then
        var delta :- ReadU32(bytes, at + 3);
        Some((delta, at + 7))
      else Some((((lead % 16) * 256 + bytes[at + 2] as int) * 256 + bytes[at + 1], at + 3))
  }

  /** The source gives up once it holds UPX_LIMIT positions; a step backwards cannot be told from one. */
  function UpxWalk(bytes: seq<byte>, at: nat, position: int, count: nat): Option<(seq<nat>, nat)>
    decreases UPX_LIMIT - count
  {
    if count >= UPX_LIMIT || at >= |bytes| then None
    else if bytes[at] == 0 then Some(([], at + 1))
    else
      var (delta, next) :- UpxDelta(bytes, at);
      if position + delta < 0 then None
      else
        var (rest, end) :- UpxWalk(bytes, next, position + delta, count + 1);
        Some(([position + delta] + rest, end))
  }

  function UpxDeltaCode(delta: nat): (r: seq<byte>)
    requires 0 < delta < U32
    ensures |r| > 0 && r[0] != 0
  {
    if delta < LONG_DELTA then [delta]
    else if delta < 0x10_0000 then [LONG_DELTA + delta / 256 / 256, delta % 256, delta / 256 % 256]
    else [LONG_DELTA, 0, 0] + U32Bytes(delta)
  }

  /** No distance is wider than 32 bits, and the first position is reached from in front of the image. */
  predicate UpxEncodable(positions: seq<nat>, from: int) {
    positions == [] || (0 < positions[0] - from < U32 && UpxEncodable(positions[1..], positions[0]))
  }

  function UpxStream(positions: seq<nat>, from: int): seq<byte>
    requires UpxEncodable(positions, from)
  {
    if positions == [] then [0] else UpxDeltaCode(positions[0] - from) + UpxStream(positions[1..], positions[0])
  }

  lemma UpxDeltaRoundTrip(bytes: seq<byte>, at: nat, delta: nat)
    requires 0 < delta < U32 && StartsAt(bytes, at, UpxDeltaCode(delta))
    ensures UpxDelta(bytes, at) == Some((delta, at + |UpxDeltaCode(delta)|))
    ensures bytes[at] != 0
  {
    hide U32Bytes;
    var code := UpxDeltaCode(delta);
    assert bytes[at] == bytes[at..at + |code|][0];
    if delta >= LONG_DELTA {
      assert bytes[at + 1] == bytes[at..at + |code|][1] && bytes[at + 2] == bytes[at..at + |code|][2];
      if delta < 0x10_0000 {
        assert delta / 256 / 256 < 16;
      } else {
        StartsWith(bytes, at, [LONG_DELTA, 0, 0], U32Bytes(delta));
        U32RoundTrip(bytes, at + 3, delta);
      }
    }
  }

  lemma {:induction false} UpxWalkRoundTrip(bytes: seq<byte>, at: nat, positions: seq<nat>, from: int, count: nat)
    requires UpxEncodable(positions, from) && StartsAt(bytes, at, UpxStream(positions, from))
    ensures UpxWalk(bytes, at, from, count)
         == if count + |positions| < 0x40_0000 then Some((positions, at + |UpxStream(positions, from)|)) else None
    decreases |positions|
  {
    hide UpxDelta, UpxDeltaCode;
    if positions == [] {
      assert bytes[at] == bytes[at..at + 1][0];
    } else {
      var delta := positions[0] - from;
      StartsWith(bytes, at, UpxDeltaCode(delta), UpxStream(positions[1..], positions[0]));
      UpxDeltaRoundTrip(bytes, at, delta);
      UpxCodeNotEmpty(delta);
      UpxWalkRoundTrip(bytes, at + |UpxDeltaCode(delta)|, positions[1..], positions[0], count + 1);
      assert positions == [positions[0]] + positions[1..];
    }
  }

  lemma UpxCodeNotEmpty(delta: nat)
    requires 0 < delta < U32
    ensures |UpxDeltaCode(delta)| > 0
  {
  }

  lemma {:induction false} RisingIsUpxEncodable(positions: seq<nat>, from: int)
    requires Rising(positions) && from >= UPX_ORIGIN
    requires forall i :: 0 <= i < |positions| ==> from < positions[i] < U32 - 4
    ensures UpxEncodable(positions, from)
    decreases |positions|
  {
    if positions != [] {
      RisingIsUpxEncodable(positions[1..], positions[0]);
    }
  }

  // ----- MPRESS

  const MPRESS_LIMIT := 0x10_0000

  /** Seven bits to a byte, highest first, the low bit saying that more follow. */
  function MpressWalk(stream: seq<byte>, current: nat, delta: nat, end: nat, count: nat): Option<seq<nat>> {
    if stream == [] then Some([])
    else
      var delta := delta * 128 + stream[0] / 2;
      if stream[0] % 2 == 1 then MpressWalk(stream[1..], current, delta, end, count)
      else if delta == 0 then Some([])
      else if current + delta >= end || count >= MPRESS_LIMIT then None
      else
        Prepend([current + delta], MpressWalk(stream[1..], current + delta, 0, end, count + 1))
  }

  function MpressDecode(stream: seq<byte>, end: nat): Option<seq<nat>> {
    var positions :- MpressWalk(stream, 0, 0, end, 0);
    if positions == [] then None else Some(positions)
  }

  /** The groups in front of the last one, each with its flag set. */
  function MpressLead(value: nat): seq<byte> {
    if value == 0 then [] else MpressLead(value / 128) + [value % 128 * 2 + 1]
  }

  function MpressCode(delta: nat): seq<byte> {
    MpressLead(delta / 128) + [delta % 128 * 2]
  }

  function MpressStream(positions: seq<nat>, from: nat): seq<byte>
    requires Rising([from] + positions)
  {
    if positions == [] then []
    else
      TailRises(from, positions);
      MpressCode(positions[0] - from) + MpressStream(positions[1..], positions[0])
  }

  lemma TailRises(from: nat, positions: seq<nat>)
    requires Rising([from] + positions) && positions != []
    ensures from < positions[0] && Rising([positions[0]] + positions[1..])
  {
    var all := [from] + positions;
    assert all[0] < all[1];
    assert [positions[0]] + positions[1..] == all[1..];
  }

  lemma {:induction false} MpressLeadReads(value: nat, rest: seq<byte>, current: nat, end: nat, count: nat)
    ensures MpressWalk(MpressLead(value) + rest, current, 0, end, count) == MpressWalk(rest, current, value, end, count)
    decreases value
  {
    hide MpressWalk;
    if value == 0 {
      assert MpressLead(value) + rest == rest;
    } else {
      var group: byte := value % 128 * 2 + 1;
      var more := [group] + rest;
      assert MpressLead(value) + rest == MpressLead(value / 128) + more;
      MpressLeadReads(value / 128, more, current, end, count);
      assert more[0] == group && more[1..] == rest;
      WalkOn(more, current, value, end, count);
    }
  }

  lemma WalkOn(stream: seq<byte>, current: nat, value: nat, end: nat, count: nat)
    requires stream != [] && stream[0] == value % 128 * 2 + 1
    ensures MpressWalk(stream, current, value / 128, end, count) == MpressWalk(stream[1..], current, value, end, count)
  {
    assert value / 128 * 128 + stream[0] / 2 == value;
  }

  /** The stream may end with its last distance or with an empty one and anything behind it. */
  predicate MpressTail(tail: seq<byte>) {
    tail == [] || tail[0] == 0
  }

  predicate AllBelow(positions: seq<nat>, end: nat) {
    forall i :: 0 <= i < |positions| ==> positions[i] < end
  }

  lemma BelowStep(positions: seq<nat>, end: nat)
    requires positions != []
    ensures AllBelow(positions, end) <==> positions[0] < end && AllBelow(positions[1..], end)
  {
    if positions[0] < end && AllBelow(positions[1..], end) {
      forall i | 0 <= i < |positions|
        ensures positions[i] < end
      {
        assert i > 0 ==> positions[i] == positions[1..][i - 1];
      }
    }
  }

  lemma {:induction false} MpressWalkRoundTrip(positions: seq<nat>, from: nat, tail: seq<byte>, end: nat, count: nat)
    requires Rising([from] + positions) && MpressTail(tail)
    requires count <= 0x10_0000
    ensures MpressWalk(MpressStream(positions, from) + tail, from, 0, end, count)
         == if AllBelow(positions, end) && count + |positions| <= 0x10_0000 then Some(positions) else None
    decreases |positions|
  {
    hide MpressLead;
    if positions == [] {
      assert MpressStream(positions, from) + tail == tail;
    } else {
      TailRises(from, positions);
      var delta := positions[0] - from;
      var last: byte := delta % 128 * 2;
      var rest := MpressStream(positions[1..], positions[0]) + tail;
      assert MpressStream(positions, from) + tail == MpressLead(delta / 128) + ([last] + rest);
      MpressLeadReads(delta / 128, [last] + rest, from, end, count);
      assert ([last] + rest)[1..] == rest;
      assert delta / 128 * 128 + last / 2 == delta;
      BelowStep(positions, end);
      if count < 0x10_0000 {
        MpressWalkRoundTrip(positions[1..], positions[0], tail, end, count + 1);
      }
      assert positions == [positions[0]] + positions[1..];
    }
  }

  /** A nonempty rising list survives the MPRESS stream if and only if it is inside the image and not too long. */
  lemma MpressRoundTrip(positions: seq<nat>, tail: seq<byte>, end: nat)
    requires positions != [] && Rising([0] + positions) && MpressTail(tail)
    ensures MpressDecode(MpressStream(positions, 0) + tail, end)
         == if AllBelow(positions, end) && |positions| <= 0x10_0000 then Some(positions) else None
  {
    MpressWalkRoundTrip(positions, 0, tail, end, 0);
  }

  // ----- from the stream to the table and back

  function FixupsAt(positions: seq<nat>, start: nat, kind: nat): (r: seq<Fixup>)
    ensures |r| == |positions|
  {
    seq(|positions|, i requires 0 <= i < |positions| => Fixup(start + positions[i], kind))
  }

  lemma FixupsSorted(positions: seq<nat>, start: nat, kind: nat)
    requires Rising(positions)
    ensures Sorted(FixupsAt(positions, start, kind))
  {
  }

  lemma TableKeeps(positions: seq<nat>, start: nat, kind: nat)
    requires Rising(positions) && (kind == 3 || kind == 10)
    requires forall i :: 0 <= i < |positions| ==> PAGE <= start + positions[i] < U32
    ensures Fields(Blocks(FixupsAt(positions, start, kind))) == Some(FixupsAt(positions, start, kind))
    ensures positions != [] ==> Intact(Blocks(FixupsAt(positions, start, kind)))
  {
    hide Fields, Blocks, Intact;
    var fixups := FixupsAt(positions, start, kind);
    FixupsSorted(positions, start, kind);
    forall f | f in fixups
      ensures Encodable(f) && f.rva >= PAGE && (f.kind == 3 || f.kind == 10)
    {
      var i :| 0 <= i < |fixups| && fixups[i] == f;
    }
    PointersSurvive(fixups);
    SortedStays(fixups);
  }

  /** UPX: the restored table lists the positions of the stream, moved to the image start. */
  lemma UpxRelocationsSurvive(bytes: seq<byte>, at: nat, positions: seq<nat>, start: nat, kind: nat)
    requires Rising(positions) && |positions| < 0x40_0000 && (kind == 3 || kind == 10)
    requires forall i :: 0 <= i < |positions| ==> positions[i] < U32 - 4 && PAGE <= start + positions[i] < U32
    ensures UpxEncodable(positions, UPX_ORIGIN)
    ensures StartsAt(bytes, at, UpxStream(positions, UPX_ORIGIN)) ==>
              && UpxWalk(bytes, at, UPX_ORIGIN, 0) == Some((positions, at + |UpxStream(positions, UPX_ORIGIN)|))
              && Fields(Blocks(FixupsAt(UpxWalk(bytes, at, UPX_ORIGIN, 0).value.0, start, kind)))
                 == Some(FixupsAt(positions, start, kind))
  {
    hide Fields, Blocks, UpxWalk, UpxStream, StartsAt;
    RisingIsUpxEncodable(positions, UPX_ORIGIN);
    if StartsAt(bytes, at, UpxStream(positions, UPX_ORIGIN)) {
      UpxWalkRoundTrip(bytes, at, positions, UPX_ORIGIN, 0);
      TableKeeps(positions, start, kind);
    }
  }

  /** MPRESS: the same, with positions that are already addresses in the image. */
  lemma MpressRelocationsSurvive(positions: seq<nat>, tail: seq<byte>, end: nat, kind: nat)
    requires positions != [] && Rising([0] + positions) && MpressTail(tail) && (kind == 3 || kind == 10)
    requires |positions| <= 0x10_0000 && end <= U32
    requires forall i :: 0 <= i < |positions| ==> PAGE <= positions[i] < end
    ensures var decoded := MpressDecode(MpressStream(positions, 0) + tail, end);
            decoded.Some? && Fields(Blocks(FixupsAt(decoded.value, 0, kind))) == Some(FixupsAt(positions, 0, kind))
  {
    hide Fields, Blocks, MpressDecode, MpressStream;
    MpressRoundTrip(positions, tail, end);
    assert positions == ([0] + positions)[1..];
    TableKeeps(positions, 0, kind);
  }

  // ----- the walks as loops

  method WalkRelocations(bytes: seq<byte>, start: nat) returns (result: Option<(seq<nat>, nat)>)
    ensures result == UpxWalk(bytes, start, UPX_ORIGIN, 0)
  {
    hide UpxDelta;
    var positions: seq<nat> := [];
    var position: int, at: nat := UPX_ORIGIN, start;
    ghost var whole := UpxWalk(bytes, start, UPX_ORIGIN, 0);
    assert whole.Some? ==> [] + whole.value.0 == whole.value.0;
    while |positions| < UPX_LIMIT
      invariant |positions| <= UPX_LIMIT
      invariant whole == WithFront(positions, UpxWalk(bytes, at, position, |positions|))
    {
      if at >= |bytes| {
        return None;
      }
      if bytes[at] == 0 {
        assert positions + [] == positions;
        return Some((positions, at + 1));
      }
      var delta := UpxDelta(bytes, at);
      if delta.None? {
        return None;
      }
      if position + delta.value.0 < 0 {
        return None;
      }
      ghost var rest := UpxWalk(bytes, delta.value.1, position + delta.value.0, |positions| + 1);
      FrontTwice(positions, position + delta.value.0, rest);
      position := position + delta.value.0;
      at := delta.value.1;
      positions := positions + [position];
    }
    return None;
  }

  function WithFront(front: seq<nat>, rest: Option<(seq<nat>, nat)>): Option<(seq<nat>, nat)> {
    if rest.None? then None else Some((front + rest.value.0, rest.value.1))
  }

  lemma FrontTwice(front: seq<nat>, position: nat, rest: Option<(seq<nat>, nat)>)
    ensures WithFront(front, WithFront([position], rest)) == WithFront(front + [position], rest)
  {
    if rest.Some? {
      assert front + ([position] + rest.value.0) == front + [position] + rest.value.0;
    }
  }

  method DecodeRelocations(stream: seq<byte>, end: nat) returns (positions: Option<seq<nat>>)
    ensures positions == MpressDecode(stream, end)
  {
    var found: seq<nat> := [];
    var current: nat, delta: nat := 0, 0;
    ghost var whole := MpressWalk(stream, 0, 0, end, 0);
    var next := 0;
    assert stream[0..] == stream;
    PrependNothing(whole);
    while next < |stream|
      invariant next <= |stream| && |found| <= MPRESS_LIMIT
      invariant whole == Prepend(found, MpressWalk(stream[next..], current, delta, end, |found|))
    {
      var byte := stream[next];
      assert stream[next..][1..] == stream[next + 1..];
      next := next + 1;
      delta := delta * 128 + byte / 2;
      if byte % 2 == 1 {
        continue;
      }
      if delta == 0 {
        assert found + [] == found;
        break;
      }
      if current + delta >= end || |found| >= MPRESS_LIMIT {
        return None;
      }
      PrependTwice(found, [current + delta], MpressWalk(stream[next..], current + delta, 0, end, |found| + 1));
      current := current + delta;
      found := found + [current];
      delta := 0;
    }
    assert found + [] == found;
    return if found == [] then None else Some(found);
  }
}
