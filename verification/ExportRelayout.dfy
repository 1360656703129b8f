/**
  * Export tables that are in place: which ones are laid out without being told where they start, and
  * that laying out a laid-out table again, wherever it went, gives the same block.
  */
module ExportRelayout {
  import opened Wrappers
  import opened Buffers
  import opened Bytes
  import opened Texts
  import opened Exports

  // ----- the start

  /** Every forwarder has the address its text will have if the table starts there. */
  ghost predicate InPlace(placed: seq<Placed>, start: nat) {
    forall p :: p in placed ==> p.rva == start + p.offset
  }

  lemma InferredIff(placed: seq<Placed>, start: nat)
    ensures Inferred(placed) == Some(start) <==> placed != [] && InPlace(placed, start)
  {
    if placed != [] {
      assert placed[0] in placed;
    }
  }

  /** Without a start to go by, a table is laid out at one if and only if its forwarders stand as if it started there. */
  lemma StartIsInferredIff(bytes: seq<byte>, copy: nat, forwarders: seq<Forwarder>, start: nat)
    ensures var layout := LinkerLayout(bytes, copy, forwarders, None);
      layout.Some? && layout.value.0 == start <==>
        && ReadExports(bytes, copy).Some?
        && var table := ReadExports(bytes, copy).value;
           |PlacedOf(table, forwarders)| == |forwarders| > 0 && InPlace(PlacedOf(table, forwarders), start)
           && Fits(table, forwarders, start)
  {
    hide ReadExports, ForwarderOffsets, Inferred, Fits, Block, InPlace;
    if ReadExports(bytes, copy).Some? {
      TablesReadAreSound(bytes, copy);
      InferredIff(PlacedOf(ReadExports(bytes, copy).value, forwarders), start);
    }
  }

  // ----- the same entries

  /** The name has a forwarder here if it has one there, with the same text. */
  ghost predicate Keeps(functions: seq<nat>, forwarders: seq<Forwarder>, later: seq<nat>, moved: seq<Forwarder>, named: Named) {
    var before, after := ForwarderOf(functions, forwarders, named), ForwarderOf(later, moved, named);
    before.Some? == after.Some? && (before.Some? ==> before.value.text == after.value.text)
  }

  /** The same offsets, for the same functions. */
  ghost predicate SameOffsets(a: seq<Placed>, b: seq<Placed>) {
    |a| == |b| && forall k :: 0 <= k < |a| ==> a[k].index == b[k].index && a[k].offset == b[k].offset
  }

  lemma {:induction false} SameEntries(
      functions: seq<nat>, forwarders: seq<Forwarder>, later: seq<nat>, moved: seq<Forwarder>, names: seq<Named>, cursor: nat)
    requires forall n :: n in names ==> Keeps(functions, forwarders, later, moved, n)
    ensures NameOffsets(functions, forwarders, names, cursor) == NameOffsets(later, moved, names, cursor)
    ensures StringsBytes(functions, forwarders, names) == StringsBytes(later, moved, names)
    ensures SameOffsets(ForwarderOffsets(functions, forwarders, names, cursor), ForwarderOffsets(later, moved, names, cursor))
    decreases |names|
  {
    hide ForwarderOf, SameOffsets;
    if names == [] {
      assert SameOffsets([], []) by { NothingDiffers(); }
    } else {
      var n, rest := names[0], names[1..];
      assert Keeps(functions, forwarders, later, moved, n) && forall x :: x in rest ==> x in names;
      var next := cursor + |EntryBytes(functions, forwarders, n)|;
      SameEntries(functions, forwarders, later, moved, rest, next);
      var before, after := ForwarderOf(functions, forwarders, n), ForwarderOf(later, moved, n);
      if before.Some? {
        OffsetsBehind(
          Placed(n.index, before.value.rva, cursor + |n.name| + 1), Placed(n.index, after.value.rva, cursor + |n.name| + 1),
          ForwarderOffsets(functions, forwarders, rest, next), ForwarderOffsets(later, moved, rest, next));
      } else {
        assert forall s: seq<Placed> :: [] + s == s;
      }
    }
  }

  lemma NothingDiffers()
    ensures SameOffsets([], [])
  {
  }

  lemma OffsetsBehind(a: Placed, b: Placed, restA: seq<Placed>, restB: seq<Placed>)
    requires a.index == b.index && a.offset == b.offset && SameOffsets(restA, restB)
    ensures SameOffsets([a] + restA, [b] + restB)
  {
  }

  lemma {:induction false} SamePlacedFound(a: seq<Placed>, b: seq<Placed>, index: nat)
    requires SameOffsets(a, b)
    ensures FindPlaced(a, index).Some? == FindPlaced(b, index).Some?
    ensures FindPlaced(a, index).Some? ==> FindPlaced(a, index).value.offset == FindPlaced(b, index).value.offset
    decreases |a|
  {
    if a != [] && a[0].index != index {
      SamePlacedFound(a[1..], b[1..], index);
    }
  }

  // ----- laid out again

  /** No function has two names that lead to its forwarder. */
  ghost predicate OneNameEach(table: Table, forwarders: seq<Forwarder>) {
    var placed := PlacedOf(table, forwarders);
    forall i, j :: 0 <= i < j < |placed| ==> placed[i].index != placed[j].index
  }

  lemma {:induction false} EachIsFound(placed: seq<Placed>, k: nat)
    requires k < |placed| && forall i, j :: 0 <= i < j < |placed| ==> placed[i].index != placed[j].index
    ensures FindPlaced(placed, placed[k].index) == Some(placed[k])
    decreases k
  {
    if k > 0 {
      assert placed[0].index != placed[k].index;
      EachIsFound(placed[1..], k - 1);
    }
  }

  /** The forwarders of the laid-out table stand where its functions now lead. */
  lemma NowInPlace(table: Table, forwarders: seq<Forwarder>, moved: seq<Forwarder>, start: nat)
    requires var later := NewFunctions(table, PlacedOf(table, forwarders), start);
      forall n :: n in table.names ==> Keeps(table.functions, forwarders, later, moved, n)
    requires OneNameEach(table, forwarders)
    ensures var later := table.(functions := NewFunctions(table, PlacedOf(table, forwarders), start));
      InPlace(PlacedOf(later, moved), start) && SameOffsets(PlacedOf(table, forwarders), PlacedOf(later, moved))
  {
    hide ForwarderOffsets, Keeps, NewFunctions, SameOffsets;
    var later := table.(functions := NewFunctions(table, PlacedOf(table, forwarders), start));
    var before, after := PlacedOf(table, forwarders), PlacedOf(later, moved);
    SameEntries(table.functions, forwarders, later.functions, moved, table.names, FirstName(table));
    forall p | p in after
      ensures p.rva == start + p.offset
    {
      var k :| 0 <= k < |after| && after[k] == p;
      SameAt(before, after, k);
      EachIsFound(before, k);
      PlacedRva(later.functions, moved, later.names, FirstName(later), p);
      FunctionIs(table, before, start, p.index);
    }
  }

  lemma SameAt(a: seq<Placed>, b: seq<Placed>, k: nat)
    requires SameOffsets(a, b) && k < |b|
    ensures |a| == |b| && a[k].index == b[k].index && a[k].offset == b[k].offset
  {
  }

  lemma FunctionIs(table: Table, placed: seq<Placed>, start: nat, index: nat)
    requires index < |table.functions|
    ensures NewFunctions(table, placed, start)[index]
         == if FindPlaced(placed, index).Some? then start + FindPlaced(placed, index).value.offset else table.functions[index]
  {
  }

  /** Laying out once more moves no function. */
  lemma FunctionsStay(table: Table, before: seq<Placed>, after: seq<Placed>, start: nat)
    requires SameOffsets(before, after)
    ensures var later := table.(functions := NewFunctions(table, before, start));
      NewFunctions(later, after, start) == later.functions
  {
    hide SameOffsets, NewFunctions;
    var later := table.(functions := NewFunctions(table, before, start));
    forall i | 0 <= i < |table.functions|
      ensures NewFunctions(later, after, start)[i] == later.functions[i]
    {
      SamePlacedFound(before, after, i);
      FunctionIs(table, before, start, i);
      FunctionIs(later, after, start, i);
    }
  }

  /** The directory of the laid-out table is its own. */
  lemma HeaderStays(bytes: seq<byte>, copy: nat, table: Table, start: nat, image: seq<byte>, later: Table)
    requires copy + DIRECTORY_SIZE <= |bytes| && StartsAt(image, start, Header(bytes, copy, table, start))
    requires |later.functions| == |table.functions| && later.names == table.names
    ensures start + DIRECTORY_SIZE <= |image| && Header(image, start, later, start) == Header(bytes, copy, table, start)
  {
    hide U32Bytes, Header;
    var header := Header(bytes, copy, table, start);
    HeaderFields(bytes, copy, table, start);
    assert image[start..start + DIRECTORY_SIZE] == header;
    HeaderOf(image, start, later, start, header);
  }

  lemma HeaderOf(image: seq<byte>, at: nat, table: Table, start: nat, header: seq<byte>)
    requires at + DIRECTORY_SIZE <= |image| && image[at..at + DIRECTORY_SIZE] == header
    requires |header| == DIRECTORY_SIZE && header[NAME_OFFSET..NAME_OFFSET + 4] == U32Bytes(start + ModuleOffset(table))
    requires header[FUNCTIONS_OFFSET..FUNCTIONS_OFFSET + 4] == U32Bytes(start + DIRECTORY_SIZE)
    requires header[NAMES_OFFSET..NAMES_OFFSET + 4] == U32Bytes(start + NameTable(table))
    requires header[ORDINALS_OFFSET..ORDINALS_OFFSET + 4] == U32Bytes(start + OrdinalTable(table))
    ensures Header(image, at, table, start) == header
  {
    hide U32Bytes, Put;
    PutSame(header, NAME_OFFSET, U32Bytes(start + ModuleOffset(table)));
    PutSame(header, FUNCTIONS_OFFSET, U32Bytes(start + DIRECTORY_SIZE));
    PutSame(header, NAMES_OFFSET, U32Bytes(start + NameTable(table)));
    PutSame(header, ORDINALS_OFFSET, U32Bytes(start + OrdinalTable(table)));
  }

  lemma PutSame(buffer: seq<byte>, at: nat, bytes: seq<byte>)
    requires at + |bytes| <= |buffer| && buffer[at..at + |bytes|] == bytes
    ensures Put(buffer, at, bytes) == buffer
  {
  }

  /**
    * A laid-out table, wherever its start was from, is laid out again without being told where it starts,
    * at the same place and to the same block, if no forwarded function has two names.
    */
  lemma LaidOutAgain(bytes: seq<byte>, copy: nat, forwarders: seq<Forwarder>, known: Option<nat>, image: seq<byte>, moved: seq<Forwarder>)
    requires LinkerLayout(bytes, copy, forwarders, known).Some? && ReadExports(bytes, copy).Some?
    requires var (start, block) := LinkerLayout(bytes, copy, forwarders, known).value; StartsAt(image, start, block)
    requires var table := ReadExports(bytes, copy).value;
      && OneNameEach(table, forwarders) && |moved| == |forwarders| > 0
      && var later := NewFunctions(table, PlacedOf(table, forwarders), LinkerLayout(bytes, copy, forwarders, known).value.0);
      forall n :: n in table.names ==> Keeps(table.functions, forwarders, later, moved, n)
    ensures LinkerLayout(image, LinkerLayout(bytes, copy, forwarders, known).value.0, moved, None)
         == LinkerLayout(bytes, copy, forwarders, known)
  {
    hide Block, ReadExports, NewFunctions, StartsAt, ForwarderOffsets, NameOffsets, StringsBytes, Keeps, Header, Inferred, Fits,
      SameOffsets, InPlace, OneNameEach, LinkerLayout;
    var (start, block) := LinkerLayout(bytes, copy, forwarders, known).value;
    var table := ReadExports(bytes, copy).value;
    var before := PlacedOf(table, forwarders);
    var later := table.(functions := NewFunctions(table, before, start));
    ExportsRoundTrip(bytes, copy, forwarders, known, image);
    NewFunctionsCount(table, before, start);
    BlockIsLaidOut(bytes, copy, forwarders, known);
    LayoutFits(bytes, copy, forwarders, known);
    NowInPlace(table, forwarders, moved, start);
    var after := PlacedOf(later, moved);
    FunctionsStay(table, before, after, start);
    SameEntries(table.functions, forwarders, later.functions, moved, table.names, FirstName(table));
    PartsStand(bytes, copy, table, forwarders, start, image);
    HeaderStays(bytes, copy, table, start, image, later);
    SameBlock(bytes, copy, table, forwarders, start, image, later, moved);
    PlacedCount(before, after);
    StartIsInferredIff(image, start, moved, start);
    BlockIsLaidOut(image, start, moved, None);
  }

  lemma PlacedCount(a: seq<Placed>, b: seq<Placed>)
    requires SameOffsets(a, b)
    ensures |a| == |b|
  {
  }

  lemma LayoutFits(bytes: seq<byte>, copy: nat, forwarders: seq<Forwarder>, known: Option<nat>)
    requires LinkerLayout(bytes, copy, forwarders, known).Some?
    ensures ReadExports(bytes, copy).Some?
    ensures Fits(ReadExports(bytes, copy).value, forwarders, LinkerLayout(bytes, copy, forwarders, known).value.0)
  {
    hide Block, ReadExports, ForwarderOffsets, Inferred, Fits;
    TablesReadAreSound(bytes, copy);
  }

  lemma SameBlock(
      bytes: seq<byte>, copy: nat, table: Table, forwarders: seq<Forwarder>, start: nat, image: seq<byte>, later: Table,
      moved: seq<Forwarder>)
    requires copy + DIRECTORY_SIZE <= |bytes| && start + DIRECTORY_SIZE <= |image|
    requires later == table.(functions := NewFunctions(table, PlacedOf(table, forwarders), start))
    requires NewFunctions(later, PlacedOf(later, moved), start) == later.functions
    requires Header(image, start, later, start) == Header(bytes, copy, table, start)
    requires NameOffsets(later.functions, moved, later.names, FirstName(table))
          == NameOffsets(table.functions, forwarders, table.names, FirstName(table))
    requires StringsBytes(later.functions, moved, later.names) == StringsBytes(table.functions, forwarders, table.names)
    ensures Block(image, start, later, moved, start) == Block(bytes, copy, table, forwarders, start)
    ensures Fits(later, moved, start) == Fits(table, forwarders, start)
  {
    hide NewFunctions, ForwarderOffsets, NameOffsets, StringsBytes, Header, WordsBytes, Shifted, OrdinalsBytes, Terminated, AllWords;
    NewFunctionsCount(table, PlacedOf(table, forwarders), start);
    assert FirstName(later) == FirstName(table);
  }
}
