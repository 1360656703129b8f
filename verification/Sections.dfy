/**
  * From memory layout to file layout: where each section's captured bytes go in the rebuilt file,
  * and where an address in memory is found there.
  */
module Sections {
  import opened Wrappers
  import opened Buffers
  import opened Bytes

  const HEADER_SIZE := 40
  const NAME_SIZE := 8
  const RAW_SIZE_OFFSET := 16
  const RAW_POINTER_OFFSET := 20
  const MAX_OUTPUT := 0x4000_0000
  const USIZE := U32 * U32

  datatype Section = Section(header: nat, rva: nat, virtualSize: nat, rawSize: nat)

  /** Where a section's captured bytes go; without raw data, nowhere. */
  datatype Placement = Placement(section: Section, length: nat, rawOffset: nat, rawSize: nat)

  /** Addresses from `start` up to `end`. */
  datatype Span = Span(start: nat, end: nat)

  // ----- alignment

  predicate PowerOfTwo(value: nat) {
    value == 1 || (value > 1 && value % 2 == 0 && PowerOfTwo(value / 2))
  }

  function AlignUp(value: nat, alignment: nat): Option<nat> {
    if !PowerOfTwo(alignment) || value + alignment - 1 >= USIZE then None
    else
      var last := value + alignment - 1;
      Some(last - last % alignment)
  }

  /** The least multiple that is not below the value. */
  lemma AlignsUp(value: nat, alignment: nat)
    requires AlignUp(value, alignment).Some?
    ensures var r := AlignUp(value, alignment).value;
      r % alignment == 0 && value <= r < value + alignment && (value > 0 ==> r > 0)
  {
    var last := value + alignment - 1;
    MultipleOf(last / alignment, alignment);
    assert last / alignment * alignment == last - last % alignment;
  }

  lemma MultipleOf(times: nat, alignment: nat)
    requires alignment > 0
    ensures times * alignment % alignment == 0
  {
    var value := times * alignment;
    var excess := times - value / alignment;
    assert value == value / alignment * alignment + value % alignment;
    assert excess * alignment == value % alignment by { Distribute(times, value / alignment, alignment); }
    if excess >= 1 {
      AtLeastOnce(excess, alignment);
    } else if excess <= -1 {
      AtLeastOnce(-excess, alignment);
    }
  }

  lemma Distribute(a: int, b: int, c: int)
    ensures (a - b) * c == a * c - b * c
  {
  }

  lemma AtLeastOnce(times: int, value: int)
    requires times >= 1 && value > 0
    ensures times * value >= value && -times * value <= -value
  {
  }

  lemma SumsAlign(a: nat, b: nat, alignment: nat)
    requires alignment > 0 && a % alignment == 0 && b % alignment == 0
    ensures (a + b) % alignment == 0
  {
    var m, n := a / alignment, b / alignment;
    assert a == m * alignment && b == n * alignment;
    Distribute(m, -n, alignment);
    assert a + b == (m + n) * alignment;
    MultipleOf(m + n, alignment);
  }

  // ----- order

  function Insert(sections: seq<Section>, s: Section): seq<Section> {
    if sections == [] then [s]
    else if s.rva < sections[0].rva then [s] + sections
    else [sections[0]] + Insert(sections[1..], s)
  }

  function SortByRva(sections: seq<Section>): seq<Section> {
    if sections == [] then [] else Insert(SortByRva(sections[..|sections| - 1]), sections[|sections| - 1])
  }

  ghost predicate Sorted(sections: seq<Section>) {
    forall i, j :: 0 <= i < j < |sections| ==> sections[i].rva <= sections[j].rva
  }

  lemma {:induction false} InsertKeeps(sections: seq<Section>, s: Section)
    ensures multiset(Insert(sections, s)) == multiset(sections) + multiset{s}
  {
    if sections != [] && s.rva >= sections[0].rva {
      assert sections == [sections[0]] + sections[1..];
      InsertKeeps(sections[1..], s);
    }
  }

  lemma SameMembers(sections: seq<Section>, more: seq<Section>, s: Section)
    requires multiset(more) == multiset(sections) + multiset{s}
    ensures forall x :: x in more <==> x == s || x in sections
  {
    forall x
      ensures x in more <==> x == s || x in sections
    {
      assert x in multiset(more) <==> x in multiset(sections) + multiset{s};
    }
  }

  lemma {:induction false} InsertSorts(sections: seq<Section>, s: Section)
    requires Sorted(sections)
    ensures Sorted(Insert(sections, s))
  {
    if sections != [] && s.rva >= sections[0].rva {
      InsertSorts(sections[1..], s);
      InsertKeeps(sections[1..], s);
      SameMembers(sections[1..], Insert(sections[1..], s), s);
      var rest := Insert(sections[1..], s);
      forall j | 0 <= j < |rest|
        ensures sections[0].rva <= rest[j].rva
      {
        assert rest[j] in rest;
      }
    }
  }

  lemma {:induction false} SortSorts(sections: seq<Section>)
    ensures Sorted(SortByRva(sections)) && multiset(SortByRva(sections)) == multiset(sections)
    ensures forall x :: x in SortByRva(sections) <==> x in sections
  {
    if sections != [] {
      var front, last := sections[..|sections| - 1], sections[|sections| - 1];
      SortSorts(front);
      InsertSorts(SortByRva(front), last);
      InsertKeeps(SortByRva(front), last);
      SameMembers(SortByRva(front), SortByRva(sections), last);
      assert sections == front + [last];
    }
  }

  // ----- the layout

  function Min(a: nat, b: nat): nat {
    if a < b then a else b
  }

  function Max(a: nat, b: nat): nat {
    if a < b then b else a
  }

  function Minus(a: nat, b: nat): nat {
    if a < b then 0 else a - b
  }

  predicate IsZero(memory: seq<byte>, at: nat, length: nat) {
    at + length <= |memory| && forall i :: at <= i < at + length ==> memory[i] == 0
  }

  predicate HoldsTable(tables: seq<Span>, start: nat, end: nat) {
    exists t :: t in tables && t.start < end && t.end > start
  }

  /** How much of a section was captured: no more than it declares, up to the next one, and inside memory. */
  function Captured(sections: seq<Section>, memory: seq<byte>): nat
    requires sections != []
  {
    var s := sections[0];
    var next := if |sections| > 1 then sections[1].rva else |memory|;
    Min(Min(Max(s.virtualSize, s.rawSize), Minus(next, s.rva)), Minus(|memory|, s.rva))
  }

  function RawSize(sections: seq<Section>, memory: seq<byte>, tables: seq<Span>, alignment: nat): Option<nat>
    requires sections != []
  {
    var length, at := Captured(sections, memory), sections[0].rva;
    if length == 0 || (IsZero(memory, at, length) && !HoldsTable(tables, at, at + length)) then Some(0)
    else AlignUp(length, alignment)
  }

  function Lay(sections: seq<Section>, memory: seq<byte>, tables: seq<Span>, alignment: nat, rawOffset: nat): Option<seq<Placement>>
  {
    if sections == [] then Some([])
    else
      var rawSize :- RawSize(sections, memory, tables, alignment);
      if rawOffset + rawSize >= USIZE then None
      else
        var rest :- Lay(sections[1..], memory, tables, alignment, rawOffset + rawSize);
        Some([Placement(sections[0], Captured(sections, memory), if rawSize == 0 then 0 else rawOffset, rawSize)] + rest)
  }

  // ----- what the layout keeps

  /** A placement of captured bytes, on file boundaries. */
  ghost predicate Sound(p: Placement, memory: seq<byte>, alignment: nat) {
    && alignment > 0 && p.rawSize % alignment == 0 && p.rawOffset % alignment == 0
    && (p.length > 0 ==> p.section.rva + p.length <= |memory|)
    && (p.rawSize == 0 ==> p.rawOffset == 0 && (p.length == 0 || IsZero(memory, p.section.rva, p.length)))
    && (p.rawSize > 0 ==> 0 < p.length <= p.rawSize < p.length + alignment)
  }

  /** Captured ranges and raw ranges come in the same order and do not overlap. */
  ghost predicate Apart(ps: seq<Placement>) {
    && (forall i, j :: 0 <= i < j < |ps| ==> ps[i].section.rva + ps[i].length <= ps[j].section.rva || ps[i].length == 0)
    && (forall i, j :: 0 <= i < j < |ps| && ps[i].rawSize > 0 && ps[j].rawSize > 0 ==> ps[i].rawOffset + ps[i].rawSize <= ps[j].rawOffset)
  }

  lemma RawSizeIsSound(sections: seq<Section>, memory: seq<byte>, tables: seq<Span>, alignment: nat, rawOffset: nat)
    requires sections != [] && RawSize(sections, memory, tables, alignment).Some?
    requires PowerOfTwo(alignment) && rawOffset % alignment == 0
    ensures var rawSize, length := RawSize(sections, memory, tables, alignment).value, Captured(sections, memory);
      && Sound(Placement(sections[0], length, if rawSize == 0 then 0 else rawOffset, rawSize), memory, alignment)
      && (rawOffset + rawSize) % alignment == 0
  {
    hide IsZero, HoldsTable, AlignUp, Captured;
    var length, rawSize := Captured(sections, memory), RawSize(sections, memory, tables, alignment).value;
    CapturedInside(sections, memory);
    ZeroAligns(alignment);
    if rawSize > 0 {
      AlignsUp(length, alignment);
    } else if AlignUp(length, alignment).Some? && length > 0 {
      AlignsUp(length, alignment);
    }
    SumsAlign(rawOffset, rawSize, alignment);
  }

  lemma ZeroAligns(alignment: nat)
    requires PowerOfTwo(alignment)
    ensures alignment > 0 && 0 % alignment == 0
  {
  }

  lemma CapturedInside(sections: seq<Section>, memory: seq<byte>)
    requires sections != []
    ensures Captured(sections, memory) > 0 ==> sections[0].rva + Captured(sections, memory) <= |memory|
  {
  }

  lemma {:induction false} LayoutIsSound(sections: seq<Section>, memory: seq<byte>, tables: seq<Span>, alignment: nat, rawOffset: nat)
    requires Lay(sections, memory, tables, alignment, rawOffset).Some? && Sorted(sections)
    requires PowerOfTwo(alignment) && rawOffset % alignment == 0
    ensures var ps := Lay(sections, memory, tables, alignment, rawOffset).value;
      && |ps| == |sections| && Apart(ps)
      && forall i :: 0 <= i < |ps| ==>
           ps[i].section == sections[i] && Sound(ps[i], memory, alignment) && (ps[i].rawSize > 0 ==> ps[i].rawOffset >= rawOffset)
  {
    hide RawSize, Sound;
    if sections != [] {
      var rawSize := RawSize(sections, memory, tables, alignment).value;
      RawSizeIsSound(sections, memory, tables, alignment, rawOffset);
      LayoutIsSound(sections[1..], memory, tables, alignment, rawOffset + rawSize);
      var ps := Lay(sections, memory, tables, alignment, rawOffset).value;
      forall j | 1 <= j < |ps|
        ensures ps[0].section.rva + ps[0].length <= ps[j].section.rva || ps[0].length == 0
      {
        assert sections[1].rva <= sections[j].rva;
        assert ps[j].section == sections[1..][j - 1];
      }
    }
  }

  /**
    * An address is captured with section `i` of those in order: what the header declares, either way,
    * as far as the next section and the memory go.
    */
  predicate Belongs(sections: seq<Section>, memory: seq<byte>, i: nat, rva: nat) {
    && i < |sections| && sections[i].rva <= rva < |memory|
    && (rva < sections[i].rva + sections[i].virtualSize || rva < sections[i].rva + sections[i].rawSize)
    && (i + 1 < |sections| ==> rva < sections[i + 1].rva)
  }

  lemma {:induction false} CoveredIff(
      sections: seq<Section>, memory: seq<byte>, tables: seq<Span>, alignment: nat, rawOffset: nat, i: nat, rva: nat)
    requires Lay(sections, memory, tables, alignment, rawOffset).Some? && i < |sections|
    ensures |Lay(sections, memory, tables, alignment, rawOffset).value| == |sections|
    ensures var p := Lay(sections, memory, tables, alignment, rawOffset).value[i];
      p.section == sections[i] && (Covers(p, rva) <==> Belongs(sections, memory, i, rva))
    decreases |sections|
  {
    hide RawSize;
    LayCounts(sections, memory, tables, alignment, rawOffset);
    if i == 0 {
      FirstCovers(sections, memory, rva);
    } else {
      hide Captured;
      var rawSize := RawSize(sections, memory, tables, alignment).value;
      CoveredIff(sections[1..], memory, tables, alignment, rawOffset + rawSize, i - 1, rva);
      assert sections[1..][i - 1] == sections[i] && (i + 1 < |sections| ==> sections[1..][i] == sections[i + 1]);
    }
  }

  lemma FirstCovers(sections: seq<Section>, memory: seq<byte>, rva: nat)
    requires sections != []
    ensures sections[0].rva <= rva < sections[0].rva + Captured(sections, memory) <==> Belongs(sections, memory, 0, rva)
  {
  }

  /**
    * A section gets raw data exactly when one of its addresses holds a byte that is set, or when it has
    * addresses and an import table needs some of them.
    */
  lemma RawDataIff(sections: seq<Section>, memory: seq<byte>, tables: seq<Span>, alignment: nat, rawOffset: nat, i: nat)
    requires Lay(sections, memory, tables, alignment, rawOffset).Some? && i < |sections|
    ensures |Lay(sections, memory, tables, alignment, rawOffset).value| == |sections|
    ensures Lay(sections, memory, tables, alignment, rawOffset).value[i].rawSize > 0 <==>
      exists rva: nat :: Belongs(sections, memory, i, rva) && (memory[rva] != 0 || NeedsTable(tables, sections[i].rva, rva))
  {
    hide Lay, Belongs, Covers;
    LayCounts(sections, memory, tables, alignment, rawOffset);
    var p := Lay(sections, memory, tables, alignment, rawOffset).value[i];
    forall rva: nat
      ensures p.section == sections[i] && (Covers(p, rva) <==> Belongs(sections, memory, i, rva))
    {
      CoveredIff(sections, memory, tables, alignment, rawOffset, i, rva);
    }
    CoveredIff(sections, memory, tables, alignment, rawOffset, i, 0);
    RawDataIs(sections, memory, tables, alignment, rawOffset, i);
    SetOrNeeded(p, memory, tables, sections, i);
  }

  /** Some import table starts no later than the address, and ends behind the section's start. */
  predicate NeedsTable(tables: seq<Span>, start: nat, rva: nat) {
    exists t :: t in tables && t.start <= rva && start < t.end
  }

  lemma SetOrNeeded(p: Placement, memory: seq<byte>, tables: seq<Span>, sections: seq<Section>, i: nat)
    requires p.length > 0 ==> p.section.rva + p.length <= |memory|
    requires i < |sections| && p.section == sections[i]
    requires forall rva: nat :: Covers(p, rva) <==> Belongs(sections, memory, i, rva)
    ensures p.length > 0 && (!IsZero(memory, p.section.rva, p.length) || HoldsTable(tables, p.section.rva, p.section.rva + p.length))
       <==> exists rva: nat :: Belongs(sections, memory, i, rva) && (memory[rva] != 0 || NeedsTable(tables, sections[i].rva, rva))
  {
    hide Belongs;
    var start, end := p.section.rva, p.section.rva + p.length;
    if p.length > 0 && HoldsTable(tables, start, end) {
      var t :| t in tables && t.start < end && t.end > start;
      var rva := if t.start < start then start else t.start;
      assert Covers(p, rva) && NeedsTable(tables, start, rva);
    }
    if p.length > 0 && !IsZero(memory, start, p.length) {
      var rva :| start <= rva < end && memory[rva] != 0;
      assert Covers(p, rva);
    }
    if rva: nat :| Belongs(sections, memory, i, rva) && (memory[rva] != 0 || NeedsTable(tables, sections[i].rva, rva)) {
      assert Covers(p, rva);
      if NeedsTable(tables, start, rva) {
        var t :| t in tables && t.start <= rva && start < t.end;
        assert t.start < end;
      }
    }
  }

  lemma {:induction false} RawDataIs(
      sections: seq<Section>, memory: seq<byte>, tables: seq<Span>, alignment: nat, rawOffset: nat, i: nat)
    requires Lay(sections, memory, tables, alignment, rawOffset).Some? && i < |sections|
    ensures |Lay(sections, memory, tables, alignment, rawOffset).value| == |sections|
    ensures var p := Lay(sections, memory, tables, alignment, rawOffset).value[i];
      && (p.length > 0 ==> p.section.rva + p.length <= |memory|)
      && (p.rawSize > 0 <==>
        p.length > 0 && (!IsZero(memory, p.section.rva, p.length) || HoldsTable(tables, p.section.rva, p.section.rva + p.length)))
    decreases |sections|
  {
    hide IsZero, HoldsTable, AlignUp, Captured;
    var ps := Lay(sections, memory, tables, alignment, rawOffset).value;
    LayCounts(sections, memory, tables, alignment, rawOffset);
    if i == 0 {
      var length := Captured(sections, memory);
      CapturedInside(sections, memory);
      if AlignUp(length, alignment).Some? {
        AlignsUp(length, alignment);
      }
    } else {
      RawDataIs(sections[1..], memory, tables, alignment, rawOffset + RawSize(sections, memory, tables, alignment).value, i - 1);
    }
  }

  lemma {:induction false} LayCounts(sections: seq<Section>, memory: seq<byte>, tables: seq<Span>, alignment: nat, rawOffset: nat)
    requires Lay(sections, memory, tables, alignment, rawOffset).Some?
    ensures |Lay(sections, memory, tables, alignment, rawOffset).value| == |sections|
  {
    hide RawSize, Captured;
    if sections != [] {
      LayCounts(sections[1..], memory, tables, alignment, rawOffset + RawSize(sections, memory, tables, alignment).value);
    }
  }

  /** Raw data starts where the raw data before it ends. */
  ghost predicate Gapless(ps: seq<Placement>, start: nat)
    decreases |ps|
  {
    ps == [] || ((ps[0].rawSize > 0 ==> ps[0].rawOffset == start) && Gapless(ps[1..], start + ps[0].rawSize))
  }

  lemma {:induction false} LayoutIsGapless(sections: seq<Section>, memory: seq<byte>, tables: seq<Span>, alignment: nat, rawOffset: nat)
    requires Lay(sections, memory, tables, alignment, rawOffset).Some?
    ensures Gapless(Lay(sections, memory, tables, alignment, rawOffset).value, rawOffset)
    decreases |sections|
  {
    hide RawSize, Captured;
    if sections != [] {
      var rawSize := RawSize(sections, memory, tables, alignment).value;
      LayoutIsGapless(sections[1..], memory, tables, alignment, rawOffset + rawSize);
      var ps := Lay(sections, memory, tables, alignment, rawOffset).value;
      assert ps[1..] == Lay(sections[1..], memory, tables, alignment, rawOffset + rawSize).value;
    }
  }

  // ----- finding an address in the file

  function Find(rva: nat, ps: seq<Placement>): Option<nat> {
    if ps == [] then None
    else if ps[0].rawSize > 0 && ps[0].section.rva <= rva < ps[0].section.rva + ps[0].length then
      Some(ps[0].rawOffset + (rva - ps[0].section.rva))
    else Find(rva, ps[1..])
  }

  function RvaToFile(rva: nat, ps: seq<Placement>, headerSize: nat): Option<nat> {
    if rva < headerSize then Some(rva) else Find(rva, ps)
  }

  predicate Covers(p: Placement, rva: nat) {
    p.section.rva <= rva < p.section.rva + p.length
  }

  lemma {:induction false} FindIff(rva: nat, ps: seq<Placement>)
    requires Apart(ps)
    ensures Find(rva, ps).Some? <==> exists i :: 0 <= i < |ps| && ps[i].rawSize > 0 && Covers(ps[i], rva)
    ensures forall i :: 0 <= i < |ps| && ps[i].rawSize > 0 && Covers(ps[i], rva) ==>
      Find(rva, ps) == Some(ps[i].rawOffset + (rva - ps[i].section.rva))
  {
    if ps != [] {
      FindIff(rva, ps[1..]);
      OneAtMost(rva, ps);
      if ps[0].rawSize > 0 && Covers(ps[0], rva) {
        assert Find(rva, ps).Some?;
      } else {
        assert forall i :: 0 < i < |ps| ==> ps[i] == ps[1..][i - 1];
        assert forall i :: 0 <= i < |ps[1..]| ==> ps[1..][i] == ps[i + 1];
      }
    }
  }

  lemma OneAtMost(rva: nat, ps: seq<Placement>)
    requires Apart(ps)
    ensures forall i, j :: 0 <= i < |ps| && 0 <= j < |ps| && Covers(ps[i], rva) && Covers(ps[j], rva) ==> i == j
  {
  }

  // ----- the rebuilt file

  datatype Image = Image(sections: seq<Section>, alignment: nat)

  datatype Rebuilt = Rebuilt(output: seq<byte>, placements: seq<Placement>, headerSize: nat)

  function FirstRva(sections: seq<Section>): nat {
    if sections == [] then USIZE - 1
    else
      var s, rest := sections[0], FirstRva(sections[1..]);
      if (if s.virtualSize == 0 then s.rawSize else s.virtualSize) == 0 then rest else Min(s.rva, rest)
  }

  /** The headers, and room for one more if the first section leaves it. */
  function HeaderSize(image: Image, reserve: bool): Option<nat>
    requires image.sections != []
  {
    var end := image.sections[|image.sections| - 1].header + HEADER_SIZE;
    var minimum :- AlignUp(end, image.alignment);
    if !reserve then Some(minimum)
    else
      var roomy :- AlignUp(end + HEADER_SIZE, image.alignment);
      Some(if roomy <= FirstRva(image.sections) then roomy else minimum)
  }

  function OutputSize(ps: seq<Placement>, headerSize: nat): nat {
    if ps == [] then headerSize
    else Max(OutputSize(ps[..|ps| - 1], headerSize), ps[|ps| - 1].rawOffset + ps[|ps| - 1].rawSize)
  }

  function BuildOutput(image: Image, memory: seq<byte>, tables: seq<Span>): Option<Rebuilt> {
    if image.sections == [] then None
    else
      var headerSize :- HeaderSize(image, tables != []);
      var ps :- Lay(SortByRva(image.sections), memory, tables, image.alignment, headerSize);
      var size, copied := OutputSize(ps, headerSize), Min(headerSize, |memory|);
      if size > MAX_OUTPUT then None
      else Some(Rebuilt(Put(Zeros(Max(size, headerSize)), 0, memory[..copied]), ps, headerSize))
  }

  type Name = s: seq<byte> | |s| == NAME_SIZE witness Zeros(NAME_SIZE)

  /** A section's header fields, a readable name if it needs one, and its captured bytes. */
  function WriteOne(output: seq<byte>, memory: seq<byte>, p: Placement, name: Option<Name>): (r: Option<seq<byte>>)
    ensures r.Some? ==> |r.value| == |output|
  {
    var header := p.section.header;
    if header + RAW_POINTER_OFFSET + 4 > |output| || p.rawSize >= U32 || p.rawOffset >= U32 then None
    else
      var named := if name.Some? then Put(output, header, name.value) else output;
      var sized := Put(named, header + RAW_SIZE_OFFSET, U32Bytes(p.rawSize));
      var headed := Put(sized, header + RAW_POINTER_OFFSET, U32Bytes(p.rawOffset));
      if p.rawSize == 0 then Some(headed)
      else if p.section.rva + p.length > |memory| || p.rawOffset + p.length > |output| then None
      else Some(Put(headed, p.rawOffset, memory[p.section.rva..p.section.rva + p.length]))
  }

  function WriteAll(output: seq<byte>, memory: seq<byte>, ps: seq<Placement>, names: seq<Option<Name>>): (r: Option<seq<byte>>)
    requires |names| == |ps|
    ensures r.Some? ==> |r.value| == |output|
    decreases |ps|
  {
    if ps == [] then Some(output)
    else
      var written :- WriteOne(output, memory, ps[0], names[0]);
      WriteAll(written, memory, ps[1..], names[1..])
  }

  // ----- what writing touches

  /** The name, the raw size and the raw pointer. */
  predicate InHeader(p: Placement, at: nat) {
    || p.section.header <= at < p.section.header + NAME_SIZE
    || p.section.header + RAW_SIZE_OFFSET <= at < p.section.header + RAW_POINTER_OFFSET + 4
  }

  predicate InRaw(p: Placement, at: nat) {
    p.rawSize > 0 && p.rawOffset <= at < p.rawOffset + p.length
  }

  lemma OneTouches(output: seq<byte>, memory: seq<byte>, p: Placement, name: Option<Name>)
    requires WriteOne(output, memory, p, name).Some?
    ensures var written := WriteOne(output, memory, p, name).value;
      && (forall at :: 0 <= at < |output| && !InHeader(p, at) && !InRaw(p, at) ==> written[at] == output[at])
      && (forall at :: 0 <= at < |output| && InRaw(p, at) ==> written[at] == memory[p.section.rva + (at - p.rawOffset)])
  {
    hide U32Bytes, Put;
    var header := p.section.header;
    var named := if name.Some? then Put(output, header, name.value) else output;
    if name.Some? {
      PutTouches(output, header, name.value);
    }
    PutTouches(named, header + RAW_SIZE_OFFSET, U32Bytes(p.rawSize));
    var sized := Put(named, header + RAW_SIZE_OFFSET, U32Bytes(p.rawSize));
    PutTouches(sized, header + RAW_POINTER_OFFSET, U32Bytes(p.rawOffset));
    if p.rawSize > 0 {
      var headed := Put(sized, header + RAW_POINTER_OFFSET, U32Bytes(p.rawOffset));
      PutTouches(headed, p.rawOffset, memory[p.section.rva..p.section.rva + p.length]);
    }
  }

  lemma {:induction false} AllTouch(output: seq<byte>, memory: seq<byte>, ps: seq<Placement>, names: seq<Option<Name>>, at: nat)
    requires |names| == |ps| && WriteAll(output, memory, ps, names).Some? && at < |output|
    requires forall i :: 0 <= i < |ps| ==> !InHeader(ps[i], at) && !InRaw(ps[i], at)
    ensures WriteAll(output, memory, ps, names).value[at] == output[at]
    decreases |ps|
  {
    hide WriteOne;
    if ps != [] {
      OneTouches(output, memory, ps[0], names[0]);
      AllTouch(WriteOne(output, memory, ps[0], names[0]).value, memory, ps[1..], names[1..], at);
    }
  }

  /** Headers of the placements lie before the raw data of all. */
  ghost predicate Clear(ps: seq<Placement>, headerSize: nat) {
    forall i :: 0 <= i < |ps| ==> ps[i].section.header + HEADER_SIZE <= headerSize && (ps[i].rawSize > 0 ==> headerSize <= ps[i].rawOffset)
  }

  lemma OthersStayOut(ps: seq<Placement>, headerSize: nat, at: nat)
    requires Apart(ps) && Clear(ps, headerSize) && ps != [] && InRaw(ps[0], at) && ps[0].length <= ps[0].rawSize
    ensures forall j :: 0 <= j < |ps[1..]| ==> !InHeader(ps[1..][j], at) && !InRaw(ps[1..][j], at)
  {
    assert forall j :: 0 <= j < |ps[1..]| ==> ps[1..][j] == ps[j + 1];
  }

  /** In the end every captured byte stands where its placement says. */
  lemma {:induction false} BytesArrive(
      output: seq<byte>, memory: seq<byte>, ps: seq<Placement>, names: seq<Option<Name>>, headerSize: nat, i: nat, at: nat)
    requires |names| == |ps| && WriteAll(output, memory, ps, names).Some? && Apart(ps) && Clear(ps, headerSize)
    requires i < |ps| && InRaw(ps[i], at) && at < |output|
    requires forall j :: 0 <= j < |ps| && ps[j].rawSize > 0 ==> ps[j].length <= ps[j].rawSize
    requires ps[i].section.rva + ps[i].length <= |memory|
    ensures WriteAll(output, memory, ps, names).value[at] == memory[ps[i].section.rva + (at - ps[i].rawOffset)]
    decreases |ps|
  {
    hide WriteOne;
    var written := WriteOne(output, memory, ps[0], names[0]).value;
    OneTouches(output, memory, ps[0], names[0]);
    if i == 0 {
      OthersStayOut(ps, headerSize, at);
      AllTouch(written, memory, ps[1..], names[1..], at);
    } else {
      BytesArrive(written, memory, ps[1..], names[1..], headerSize, i - 1, at);
    }
  }

  // ----- the file agrees with memory

  /** Section headers stand in the order of the table. */
  predicate HeadersInOrder(image: Image) {
    image.sections != [] && forall s :: s in image.sections ==> s.header <= image.sections[|image.sections| - 1].header
  }

  lemma {:induction false} SizeCovers(ps: seq<Placement>, headerSize: nat)
    ensures OutputSize(ps, headerSize) >= headerSize
    ensures forall i :: 0 <= i < |ps| ==> ps[i].rawOffset + ps[i].rawSize <= OutputSize(ps, headerSize)
  {
    if ps != [] {
      SizeCovers(ps[..|ps| - 1], headerSize);
      assert forall i :: 0 <= i < |ps| - 1 ==> ps[i] == ps[..|ps| - 1][i];
    }
  }

  /** The file ends where the headers or some section's raw data end. */
  lemma {:induction false} SizeIsNeeded(ps: seq<Placement>, headerSize: nat)
    ensures OutputSize(ps, headerSize) == headerSize
         || exists i :: 0 <= i < |ps| && OutputSize(ps, headerSize) == ps[i].rawOffset + ps[i].rawSize
  {
    if ps != [] {
      SizeIsNeeded(ps[..|ps| - 1], headerSize);
      assert forall i :: 0 <= i < |ps| - 1 ==> ps[i] == ps[..|ps| - 1][i];
      if OutputSize(ps, headerSize) == ps[|ps| - 1].rawOffset + ps[|ps| - 1].rawSize {
        assert 0 <= |ps| - 1 < |ps|;
      }
    }
  }

  lemma HeadersFit(image: Image, reserve: bool)
    requires HeadersInOrder(image) && HeaderSize(image, reserve).Some?
    ensures HeaderSize(image, reserve).value % image.alignment == 0 && PowerOfTwo(image.alignment)
    ensures forall s :: s in image.sections ==> s.header + HEADER_SIZE <= HeaderSize(image, reserve).value
  {
    hide AlignUp, FirstRva, PowerOfTwo;
    var end := image.sections[|image.sections| - 1].header + HEADER_SIZE;
    AlignsUp(end, image.alignment);
    AlignedToPower(end, image.alignment);
    if reserve {
      AlignsUp(end + HEADER_SIZE, image.alignment);
    }
  }

  lemma AlignedToPower(value: nat, alignment: nat)
    requires AlignUp(value, alignment).Some?
    ensures PowerOfTwo(alignment)
  {
  }

  /** Whether a section has anything in memory: the raw size counts where no virtual size is given. */
  predicate Mapped(s: Section) {
    s.virtualSize > 0 || s.rawSize > 0
  }

  lemma {:induction false} FirstRvaIs(sections: seq<Section>, bound: nat)
    requires bound < USIZE
    ensures bound <= FirstRva(sections) <==> forall s :: s in sections && Mapped(s) ==> bound <= s.rva
  {
    if sections != [] {
      FirstRvaIs(sections[1..], bound);
      assert sections == [sections[0]] + sections[1..];
    }
  }

  /**
    * The headers end at the first file boundary behind the last one. If asked, there is room for one
    * more, unless that boundary would pass the first address that is mapped.
    */
  lemma HeadersEnd(image: Image, reserve: bool)
    requires image.sections != [] && HeaderSize(image, reserve).Some?
    ensures var last := image.sections[|image.sections| - 1].header;
      && AlignUp(last + 40, image.alignment).Some? && (reserve ==> AlignUp(last + 80, image.alignment).Some?)
      && HeaderSize(image, reserve)
         == if reserve && forall s :: s in image.sections && Mapped(s) ==> AlignUp(last + 80, image.alignment).value <= s.rva
            then AlignUp(last + 80, image.alignment)
            else AlignUp(last + 40, image.alignment)
  {
    hide AlignUp, FirstRva;
    var end := image.sections[|image.sections| - 1].header + HEADER_SIZE;
    if reserve {
      AlignedIsSmall(end + HEADER_SIZE, image.alignment);
      FirstRvaIs(image.sections, AlignUp(end + HEADER_SIZE, image.alignment).value);
    }
  }

  lemma AlignmentIsPositive(alignment: nat)
    requires PowerOfTwo(alignment)
    ensures alignment > 0
  {
  }

  lemma AlignedIsSmall(value: nat, alignment: nat)
    requires AlignUp(value, alignment).Some?
    ensures AlignUp(value, alignment).value < USIZE
  {
    AlignmentIsPositive(alignment);
  }

  /** What building the output leaves for the writer. */
  ghost predicate Ready(built: Rebuilt, memory: seq<byte>, alignment: nat) {
    && Apart(built.placements) && Clear(built.placements, built.headerSize) && built.headerSize <= |built.output| <= MAX_OUTPUT
    && forall i :: 0 <= i < |built.placements| ==>
         && Sound(built.placements[i], memory, alignment)
         && built.placements[i].rawOffset + built.placements[i].rawSize <= |built.output|
  }

  lemma BuiltIsReady(image: Image, memory: seq<byte>, tables: seq<Span>)
    requires HeadersInOrder(image) && BuildOutput(image, memory, tables).Some?
    ensures var built := BuildOutput(image, memory, tables).value;
      Ready(built, memory, image.alignment) && |built.placements| == |image.sections|
  {
    hide Lay, Sound, Sorted, SortByRva, OutputSize, HeaderSize;
    var built := BuildOutput(image, memory, tables).value;
    var sections := SortByRva(image.sections);
    HeadersFit(image, tables != []);
    SortSorts(image.sections);
    SameCount(sections, image.sections);
    LayoutIsSound(sections, memory, tables, image.alignment, built.headerSize);
    SizeCovers(built.placements, built.headerSize);
    forall i | 0 <= i < |built.placements|
      ensures built.placements[i].section.header + HEADER_SIZE <= built.headerSize
    {
      assert sections[i] in sections;
    }
  }

  lemma SameCount(a: seq<Section>, b: seq<Section>)
    requires multiset(a) == multiset(b)
    ensures |a| == |b|
  {
    assert |multiset(a)| == |a| && |multiset(b)| == |b|;
  }

  lemma {:induction false} WritingSucceeds(
      output: seq<byte>, memory: seq<byte>, ps: seq<Placement>, names: seq<Option<Name>>, headerSize: nat, alignment: nat)
    requires |names| == |ps| && Clear(ps, headerSize) && headerSize <= |output| <= MAX_OUTPUT
    requires forall i :: 0 <= i < |ps| ==> Sound(ps[i], memory, alignment) && ps[i].rawOffset + ps[i].rawSize <= |output|
    ensures WriteAll(output, memory, ps, names).Some?
    decreases |ps|
  {
    hide Put, U32Bytes;
    if ps != [] {
      WritingSucceeds(WriteOne(output, memory, ps[0], names[0]).value, memory, ps[1..], names[1..], headerSize, alignment);
    }
  }

  lemma WrittenAgrees(built: Rebuilt, memory: seq<byte>, alignment: nat, names: seq<Option<Name>>, rva: nat)
    requires Ready(built, memory, alignment) && |names| == |built.placements| && rva >= built.headerSize
    ensures var written, at := WriteAll(built.output, memory, built.placements, names), RvaToFile(rva, built.placements, built.headerSize);
      && written.Some?
      && (at.Some? ==> built.headerSize <= at.value < |written.value| && rva < |memory| && written.value[at.value] == memory[rva])
      && (at.None? ==> forall i :: 0 <= i < |built.placements| && Covers(built.placements[i], rva) ==>
            rva < |memory| && memory[rva] == 0)
  {
    hide Find, Apart, WriteAll;
    var ps := built.placements;
    WritingSucceeds(built.output, memory, ps, names, built.headerSize, alignment);
    FindIff(rva, ps);
    if Find(rva, ps).Some? {
      var i :| 0 <= i < |ps| && ps[i].rawSize > 0 && Covers(ps[i], rva);
      BytesArrive(built.output, memory, ps, names, built.headerSize, i, ps[i].rawOffset + (rva - ps[i].section.rva));
    }
  }

  /** An address that some section's header declares, up to the next section, and that memory has. */
  ghost predicate Declared(image: Image, memory: seq<byte>, rva: nat) {
    exists i: nat :: Belongs(SortByRva(image.sections), memory, i, rva)
  }

  /**
    * Past the headers, the byte of the rebuilt file at an address's place is what memory held there.
    * Only declared addresses have a place, and a declared address without one held zero.
    */
  lemma FileAgreesWithMemory(image: Image, memory: seq<byte>, tables: seq<Span>, names: seq<Option<Name>>, rva: nat)
    requires HeadersInOrder(image) && BuildOutput(image, memory, tables).Some?
    requires |names| == |image.sections| && rva >= BuildOutput(image, memory, tables).value.headerSize
    ensures var built := BuildOutput(image, memory, tables).value;
      && |names| == |built.placements| && WriteAll(built.output, memory, built.placements, names).Some?
      && var file := WriteAll(built.output, memory, built.placements, names).value;
      var at := RvaToFile(rva, built.placements, built.headerSize);
      && (at.Some? ==> Declared(image, memory, rva) && built.headerSize <= at.value < |file| && file[at.value] == memory[rva])
      && (at.None? && Declared(image, memory, rva) ==> memory[rva] == 0)
  {
    hide BuildOutput, Ready, WriteAll, Covers, Find, Belongs, SortByRva;
    BuiltIsReady(image, memory, tables);
    var built := BuildOutput(image, memory, tables).value;
    WrittenAgrees(built, memory, image.alignment, names, rva);
    DeclaredIff(image, memory, tables, rva);
    FoundIsCovered(rva, built.placements);
    if i: nat :| Belongs(SortByRva(image.sections), memory, i, rva) {
      DeclaredIsThere(SortByRva(image.sections), memory, i, rva);
    }
  }

  lemma DeclaredIsThere(sections: seq<Section>, memory: seq<byte>, i: nat, rva: nat)
    requires Belongs(sections, memory, i, rva)
    ensures rva < |memory|
  {
  }

  lemma {:induction false} FoundIsCovered(rva: nat, ps: seq<Placement>)
    ensures Find(rva, ps).Some? ==> exists i :: 0 <= i < |ps| && Covers(ps[i], rva)
  {
    if ps != [] {
      FoundIsCovered(rva, ps[1..]);
      if Find(rva, ps[1..]).Some? {
        var i :| 0 <= i < |ps[1..]| && Covers(ps[1..][i], rva);
        assert Covers(ps[i + 1], rva);
      } else if Find(rva, ps).Some? {
        assert Covers(ps[0], rva);
      }
    }
  }

  /** The addresses the placements cover are the declared ones. */
  lemma DeclaredIff(image: Image, memory: seq<byte>, tables: seq<Span>, rva: nat)
    requires BuildOutput(image, memory, tables).Some?
    ensures var ps := BuildOutput(image, memory, tables).value.placements;
      Declared(image, memory, rva) <==> exists i :: 0 <= i < |ps| && Covers(ps[i], rva)
  {
    hide Lay, Covers, SortByRva, HeaderSize, OutputSize;
    var built, sections := BuildOutput(image, memory, tables).value, SortByRva(image.sections);
    LayCounts(sections, memory, tables, image.alignment, built.headerSize);
    forall i: nat | i < |sections|
      ensures Covers(built.placements[i], rva) <==> Belongs(sections, memory, i, rva)
    {
      CoveredIff(sections, memory, tables, image.alignment, built.headerSize, i, rva);
    }
    if i: nat :| Belongs(sections, memory, i, rva) {
      assert Covers(built.placements[i], rva);
    }
    if i :| 0 <= i < |built.placements| && Covers(built.placements[i], rva) {
      assert Belongs(sections, memory, i, rva);
    }
  }

  /** The headers are memory's but for the fields written. */
  lemma HeadersAreKept(image: Image, memory: seq<byte>, tables: seq<Span>, names: seq<Option<Name>>, at: nat)
    requires HeadersInOrder(image) && BuildOutput(image, memory, tables).Some?
    requires var built := BuildOutput(image, memory, tables).value;
      && |names| == |built.placements| && at < built.headerSize && at < |memory|
      && forall i :: 0 <= i < |built.placements| ==> !InHeader(built.placements[i], at)
    ensures var built := BuildOutput(image, memory, tables).value;
      && WriteAll(built.output, memory, built.placements, names).Some?
      && WriteAll(built.output, memory, built.placements, names).value[at] == memory[at]
  {
    hide Lay, WriteAll, HeaderSize, OutputSize, SortByRva, Sound, Apart;
    var built := BuildOutput(image, memory, tables).value;
    BuiltIsReady(image, memory, tables);
    WritingSucceeds(built.output, memory, built.placements, names, built.headerSize, image.alignment);
    AllTouch(built.output, memory, built.placements, names, at);
  }

  /** A section's header says where its raw data is, if headers do not overlap. */
  lemma {:induction false} HeadersTell(
      output: seq<byte>, memory: seq<byte>, ps: seq<Placement>, names: seq<Option<Name>>, headerSize: nat, i: nat)
    requires |names| == |ps| && WriteAll(output, memory, ps, names).Some? && Clear(ps, headerSize) && i < |ps|
    requires forall j, k :: 0 <= j < |ps| && 0 <= k < |ps| && j != k ==>
      ps[j].section.header + HEADER_SIZE <= ps[k].section.header || ps[k].section.header + HEADER_SIZE <= ps[j].section.header
    ensures var written := WriteAll(output, memory, ps, names).value;
      && ReadU32(written, ps[i].section.header + 16) == Some(ps[i].rawSize)
      && ReadU32(written, ps[i].section.header + 20) == Some(ps[i].rawOffset)
      && (names[i].Some? ==> StartsAt(written, ps[i].section.header, names[i].value))
    decreases |ps|
  {
    hide WriteOne;
    var written := WriteOne(output, memory, ps[0], names[0]).value;
    if i == 0 {
      var at := ps[0].section.header;
      OneTells(output, memory, ps[0], names[0], headerSize);
      forall k | at <= k < at + RAW_POINTER_OFFSET + 4
        ensures WriteAll(written, memory, ps[1..], names[1..]).value[k] == written[k]
      {
        forall j | 0 <= j < |ps[1..]|
          ensures !InHeader(ps[1..][j], k) && !InRaw(ps[1..][j], k)
        {
          assert ps[1..][j] == ps[j + 1];
        }
        AllTouch(written, memory, ps[1..], names[1..], k);
      }
    } else {
      HeadersTell(written, memory, ps[1..], names[1..], headerSize, i - 1);
    }
  }

  lemma OneTells(output: seq<byte>, memory: seq<byte>, p: Placement, name: Option<Name>, headerSize: nat)
    requires WriteOne(output, memory, p, name).Some? && p.section.header + HEADER_SIZE <= headerSize
    requires p.rawSize > 0 ==> headerSize <= p.rawOffset
    ensures var written := WriteOne(output, memory, p, name).value;
      && ReadU32(written, p.section.header + RAW_SIZE_OFFSET) == Some(p.rawSize)
      && ReadU32(written, p.section.header + RAW_POINTER_OFFSET) == Some(p.rawOffset)
      && (name.Some? ==> StartsAt(written, p.section.header, name.value))
  {
    hide U32Bytes, U32At, Put;
    var header, written := p.section.header, WriteOne(output, memory, p, name).value;
    var size, pointer := U32Bytes(p.rawSize), U32Bytes(p.rawOffset);
    var named := if name.Some? then Put(output, header, name.value) else output;
    var sized := Put(named, header + RAW_SIZE_OFFSET, size);
    var headed := Put(sized, header + RAW_POINTER_OFFSET, pointer);
    PutTouches(named, header + RAW_SIZE_OFFSET, size);
    PutTouches(sized, header + RAW_POINTER_OFFSET, pointer);
    if p.rawSize > 0 {
      PutTouches(headed, p.rawOffset, memory[p.section.rva..p.section.rva + p.length]);
    }
    if name.Some? {
      PutTouches(output, header, name.value);
      assert written[header..header + NAME_SIZE] == name.value;
    }
    assert written[header + RAW_SIZE_OFFSET..header + RAW_POINTER_OFFSET] == size;
    assert written[header + RAW_POINTER_OFFSET..header + RAW_POINTER_OFFSET + 4] == pointer;
    U32RoundTrip(written, header + RAW_SIZE_OFFSET, p.rawSize);
    U32RoundTrip(written, header + RAW_POINTER_OFFSET, p.rawOffset);
  }

  /** No two addresses share a place in the file. */
  lemma PlacesAreDistinct(built: Rebuilt, memory: seq<byte>, alignment: nat, a: nat, b: nat)
    requires Ready(built, memory, alignment)
    requires RvaToFile(a, built.placements, built.headerSize).Some?
    requires RvaToFile(a, built.placements, built.headerSize) == RvaToFile(b, built.placements, built.headerSize)
    ensures a == b
  {
    hide Find;
    FindIff(a, built.placements);
    FindIff(b, built.placements);
  }

  /** Past the headers, what no section's bytes fill is zero. */
  lemma PaddingIsZero(image: Image, memory: seq<byte>, tables: seq<Span>, names: seq<Option<Name>>, at: nat)
    requires HeadersInOrder(image) && BuildOutput(image, memory, tables).Some?
    requires var built := BuildOutput(image, memory, tables).value;
      && |names| == |built.placements| && built.headerSize <= at < |built.output|
      && forall i :: 0 <= i < |built.placements| ==> !InRaw(built.placements[i], at)
    ensures var built := BuildOutput(image, memory, tables).value;
      && WriteAll(built.output, memory, built.placements, names).Some?
      && WriteAll(built.output, memory, built.placements, names).value[at] == 0
  {
    hide Lay, WriteAll, HeaderSize, OutputSize, SortByRva, Sound, Apart;
    var built := BuildOutput(image, memory, tables).value;
    BuiltIsReady(image, memory, tables);
    WritingSucceeds(built.output, memory, built.placements, names, built.headerSize, image.alignment);
    AllTouch(built.output, memory, built.placements, names, at);
  }

  // ----- step by step

  method LayOut(sections: seq<Section>, memory: seq<byte>, tables: seq<Span>, alignment: nat, headerSize: nat)
    returns (r: Option<seq<Placement>>)
    ensures r == Lay(sections, memory, tables, alignment, headerSize)
  {
    hide RawSize, Captured;
    var ps: seq<Placement> := [];
    var rawOffset: nat := headerSize;
    assert sections[0..] == sections;
    PrependNothing(Lay(sections, memory, tables, alignment, headerSize));
    for i := 0 to |sections|
      invariant Lay(sections, memory, tables, alignment, headerSize)
             == Prepend(ps, Lay(sections[i..], memory, tables, alignment, rawOffset))
    {
      assert sections[i..][0] == sections[i] && sections[i..][1..] == sections[i + 1..];
      var length, rawSize := PlaceSection(sections, i, memory, tables, alignment);
      if rawSize.None? || rawOffset + rawSize.value >= USIZE {
        return None;
      }
      var p := Placement(sections[i], length, if rawSize.value == 0 then 0 else rawOffset, rawSize.value);
      PrependTwice(ps, [p], Lay(sections[i + 1..], memory, tables, alignment, rawOffset + rawSize.value));
      ps, rawOffset := ps + [p], rawOffset + rawSize.value;
    }
    assert sections[|sections|..] == [] && ps + [] == ps;
    return Some(ps);
  }

  method PlaceSection(sections: seq<Section>, i: nat, memory: seq<byte>, tables: seq<Span>, alignment: nat)
    returns (length: nat, rawSize: Option<nat>)
    requires i < |sections|
    ensures length == Captured(sections[i..], memory) && rawSize == RawSize(sections[i..], memory, tables, alignment)
  {
    hide AlignUp;
    var section := sections[i];
    var nextRva := if i + 1 < |sections| then sections[i + 1].rva else |memory|;
    var declared := Max(section.virtualSize, section.rawSize);
    length := Min(Min(declared, Minus(nextRva, section.rva)), Minus(|memory|, section.rva));
    var end := section.rva + length;
    var holdsTable := exists t :: t in tables && t.start < end && t.end > section.rva;
    var zero := SectionIsZero(memory, section.rva, length);
    var empty := zero && !holdsTable;
    rawSize := if length == 0 || empty then Some(0) else AlignUp(length, alignment);
  }

  method SectionIsZero(memory: seq<byte>, at: nat, length: nat) returns (zero: bool)
    ensures zero == IsZero(memory, at, length)
  {
    if at + length > |memory| {
      return false;
    }
    for i := at to at + length
      invariant forall k :: at <= k < i ==> memory[k] == 0
    {
      if memory[i] != 0 {
        return false;
      }
    }
    return true;
  }

  method BuildOutputBuffer(image: Image, memory: seq<byte>, tables: seq<Span>)
    returns (output: array?<byte>, ps: seq<Placement>, headerSize: nat)
    ensures output != null <==> BuildOutput(image, memory, tables).Some?
    ensures output != null ==> fresh(output) && BuildOutput(image, memory, tables) == Some(Rebuilt(output[..], ps, headerSize))
  {
    hide AlignUp, Lay, SortByRva, OutputSize, FirstRva;
    output, ps, headerSize := null, [], 0;
    if image.sections == [] {
      return;
    }
    var header := HeaderSize(image, tables != []);
    if header.None? {
      return;
    }
    headerSize := header.value;
    var laid := LayOut(SortByRva(image.sections), memory, tables, image.alignment, headerSize);
    if laid.None? {
      return;
    }
    ps := laid.value;
    var size := headerSize;
    assert ps[..0] == [];
    assert OutputSize([], headerSize) == headerSize by { NoPlacements(headerSize); }
    for i := 0 to |ps|
      invariant size == OutputSize(ps[..i], headerSize)
    {
      OneMorePlacement(ps, headerSize, i);
      size := Max(size, ps[i].rawOffset + ps[i].rawSize);
    }
    assert ps[..|ps|] == ps;
    SizeCovers(ps, headerSize);
    if size > MAX_OUTPUT {
      return;
    }
    output := new byte[size](_ => 0);
    assert output[..] == Zeros(size);
    CopyInto(output, 0, memory[..Min(headerSize, |memory|)]);
  }

  lemma NoPlacements(headerSize: nat)
    ensures OutputSize([], headerSize) == headerSize
  {
  }

  lemma OneMorePlacement(ps: seq<Placement>, headerSize: nat, i: nat)
    requires i < |ps|
    ensures OutputSize(ps[..i + 1], headerSize) == Max(OutputSize(ps[..i], headerSize), ps[i].rawOffset + ps[i].rawSize)
  {
    assert ps[..i + 1][..i] == ps[..i];
  }

  method WriteSections(output: array<byte>, memory: seq<byte>, ps: seq<Placement>, names: seq<Option<Name>>) returns (ok: bool)
    requires |names| == |ps|
    modifies output
    ensures ok <==> WriteAll(old(output[..]), memory, ps, names).Some?
    ensures ok ==> output[..] == WriteAll(old(output[..]), memory, ps, names).value
  {
    hide Put, U32Bytes;
    ghost var start := output[..];
    for i := 0 to |ps|
      invariant WriteAll(start, memory, ps, names) == WriteAll(output[..], memory, ps[i..], names[i..])
    {
      var p, header := ps[i], ps[i].section.header;
      assert ps[i..][0] == p && ps[i..][1..] == ps[i + 1..] && names[i..][0] == names[i] && names[i..][1..] == names[i + 1..];
      if header + RAW_POINTER_OFFSET + 4 > output.Length || p.rawSize >= U32 || p.rawOffset >= U32 {
        return false;
      }
      ghost var before := output[..];
      if names[i].Some? {
        CopyInto(output, header, names[i].value);
      }
      CopyInto(output, header + RAW_SIZE_OFFSET, U32Bytes(p.rawSize));
      CopyInto(output, header + RAW_POINTER_OFFSET, U32Bytes(p.rawOffset));
      if p.rawSize > 0 {
        if p.section.rva + p.length > |memory| || p.rawOffset + p.length > output.Length {
          return false;
        }
        CopyInto(output, p.rawOffset, memory[p.section.rva..p.section.rva + p.length]);
      }
      assert WriteOne(before, memory, p, names[i]) == Some(output[..]);
    }
    return true;
  }
}
