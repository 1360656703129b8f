/**
  * Export tables laid out the way linkers do: directory, functions, name pointers, ordinals, module
  * name, then each name with the text of its forwarder behind it. A first pass finds every offset, a
  * second one writes what stands there.
  */
module Exports {
  import opened Wrappers
  import opened Buffers
  import opened Bytes
  import opened Texts

  const DIRECTORY_SIZE := 40
  const NAME_OFFSET := 12
  const FUNCTION_COUNT_OFFSET := 20
  const NAME_COUNT_OFFSET := 24
  const FUNCTIONS_OFFSET := 28
  const NAMES_OFFSET := 32
  const ORDINALS_OFFSET := 36
  const MAX_ENTRIES := 65536

  /** A name and the index of the function it exports. */
  datatype Named = Named(name: Text, index: nat)

  datatype Table = Table(moduleName: Text, functions: seq<nat>, names: seq<Named>)

  /** A function's address that leads to the text of another module's export. */
  datatype Forwarder = Forwarder(rva: nat, text: Text)

  // ----- reading

  function Clamp(count: nat): nat {
    if count < MAX_ENTRIES then count else MAX_ENTRIES
  }

  function ReadWords(bytes: seq<byte>, at: nat, count: nat): Option<seq<nat>>
    decreases count
  {
    if count == 0 then Some([])
    else
      var first :- ReadU32(bytes, at);
      var rest :- ReadWords(bytes, at + 4, count - 1);
      Some([first] + rest)
  }

  function ReadNames(bytes: seq<byte>, names: nat, ordinals: nat, count: nat): Option<seq<Named>>
    decreases count
  {
    if count == 0 then Some([])
    else
      var name :- ReadU32(bytes, names);
      var index :- ReadU16(bytes, ordinals);
      var text :- ReadText(bytes, name);
      var rest :- ReadNames(bytes, names + 4, ordinals + 2, count - 1);
      Some([Named(text, index)] + rest)
  }

  function ReadExports(bytes: seq<byte>, at: nat): Option<Table> {
    var functionCount :- ReadU32(bytes, at + FUNCTION_COUNT_OFFSET);
    var functionTable :- ReadU32(bytes, at + FUNCTIONS_OFFSET);
    var functions :- ReadWords(bytes, functionTable, Clamp(functionCount));
    var nameCount :- ReadU32(bytes, at + NAME_COUNT_OFFSET);
    var names :- ReadU32(bytes, at + NAMES_OFFSET);
    var ordinals :- ReadU32(bytes, at + ORDINALS_OFFSET);
    var moduleAt :- ReadU32(bytes, at + NAME_OFFSET);
    var moduleName :- ReadText(bytes, moduleAt);
    var exported :- ReadNames(bytes, names, ordinals, Clamp(nameCount));
    Some(Table(moduleName, functions, exported))
  }

  // ----- the first pass: where everything will stand

  function Find(forwarders: seq<Forwarder>, rva: nat): (r: Option<Forwarder>)
    ensures r.Some? ==> r.value in forwarders && r.value.rva == rva
    ensures r.None? ==> forall f :: f in forwarders ==> f.rva != rva
  {
    if forwarders == [] then None
    else if forwarders[0].rva == rva then Some(forwarders[0])
    else Find(forwarders[1..], rva)
  }

  function ForwarderOf(functions: seq<nat>, forwarders: seq<Forwarder>, named: Named): Option<Forwarder> {
    if named.index < |functions| then Find(forwarders, functions[named.index]) else None
  }

  function Terminated(text: Text): (r: seq<byte>)
    ensures |r| == |text| + 1
  {
    text + [0]
  }

  function EntryBytes(functions: seq<nat>, forwarders: seq<Forwarder>, named: Named): seq<byte> {
    var forwarder := ForwarderOf(functions, forwarders, named);
    Terminated(named.name) + (if forwarder.Some? then Terminated(forwarder.value.text) else [])
  }

  function NameOffsets(functions: seq<nat>, forwarders: seq<Forwarder>, names: seq<Named>, cursor: nat): (r: seq<nat>)
    ensures |r| == |names|
    decreases |names|
  {
    if names == [] then []
    else [cursor] + NameOffsets(functions, forwarders, names[1..], cursor + |EntryBytes(functions, forwarders, names[0])|)
  }

  /** A forwarded function, the address its forwarder had, and where its text will stand. */
  datatype Placed = Placed(index: nat, rva: nat, offset: nat)

  function ForwarderOffsets(functions: seq<nat>, forwarders: seq<Forwarder>, names: seq<Named>, cursor: nat): seq<Placed>
    decreases |names|
  {
    if names == [] then []
    else
      var forwarder := ForwarderOf(functions, forwarders, names[0]);
      (if forwarder.Some? then [Placed(names[0].index, forwarder.value.rva, cursor + |names[0].name| + 1)] else [])
      + ForwarderOffsets(functions, forwarders, names[1..], cursor + |EntryBytes(functions, forwarders, names[0])|)
  }

  /** Forwarders that still sit where the linker put them all tell the same start. */
  function Inferred(placed: seq<Placed>): Option<nat> {
    if placed == [] || placed[0].rva < placed[0].offset then None
    else if forall p :: p in placed ==> p.rva >= p.offset && p.rva - p.offset == placed[0].rva - placed[0].offset then
      Some(placed[0].rva - placed[0].offset)
    else None
  }

  function NameTable(table: Table): nat {
    DIRECTORY_SIZE + 4 * |table.functions|
  }

  function OrdinalTable(table: Table): nat {
    NameTable(table) + 4 * |table.names|
  }

  function ModuleOffset(table: Table): nat {
    OrdinalTable(table) + 2 * |table.names|
  }

  function FirstName(table: Table): nat {
    ModuleOffset(table) + |table.moduleName| + 1
  }

  // ----- the second pass: what stands there

  function WordsBytes(words: seq<nat>): (r: seq<byte>)
    ensures |r| == 4 * |words|
  {
    if words == [] then [] else U32Bytes(words[0]) + WordsBytes(words[1..])
  }

  function OrdinalsBytes(names: seq<Named>): (r: seq<byte>)
    ensures |r| == 2 * |names|
  {
    if names == [] then [] else U16Bytes(names[0].index) + OrdinalsBytes(names[1..])
  }

  function StringsBytes(functions: seq<nat>, forwarders: seq<Forwarder>, names: seq<Named>): seq<byte>
    decreases |names|
  {
    if names == [] then []
    else EntryBytes(functions, forwarders, names[0]) + StringsBytes(functions, forwarders, names[1..])
  }

  function FindPlaced(placed: seq<Placed>, index: nat): (r: Option<Placed>)
    ensures r.Some? ==> r.value in placed && r.value.index == index
    ensures r.None? ==> forall p :: p in placed ==> p.index != index
  {
    if placed == [] then None
    else if placed[0].index == index then Some(placed[0])
    else FindPlaced(placed[1..], index)
  }

  /** A forwarded function's address moves to where its text will stand; the others stay. */
  function NewFunctions(table: Table, placed: seq<Placed>, start: nat): (r: seq<nat>)
    ensures |r| == |table.functions|
  {
    seq(|table.functions|, i requires 0 <= i < |table.functions| =>
      if FindPlaced(placed, i).Some? then start + FindPlaced(placed, i).value.offset else table.functions[i])
  }

  function Shifted(offsets: seq<nat>, start: nat): (r: seq<nat>)
    ensures |r| == |offsets|
  {
    seq(|offsets|, i requires 0 <= i < |offsets| => start + offsets[i])
  }

  predicate AllWords(words: seq<nat>) {
    forall w :: w in words ==> w < U32
  }

  function Header(bytes: seq<byte>, copy: nat, table: Table, start: nat): (r: seq<byte>)
    requires copy + DIRECTORY_SIZE <= |bytes|
    ensures |r| == DIRECTORY_SIZE
  {
    var named := Put(bytes[copy..copy + DIRECTORY_SIZE], NAME_OFFSET, U32Bytes(start + ModuleOffset(table)));
    var listed := Put(named, FUNCTIONS_OFFSET, U32Bytes(start + DIRECTORY_SIZE));
    var numbered := Put(listed, NAMES_OFFSET, U32Bytes(start + NameTable(table)));
    Put(numbered, ORDINALS_OFFSET, U32Bytes(start + OrdinalTable(table)))
  }

  function Block(bytes: seq<byte>, copy: nat, table: Table, forwarders: seq<Forwarder>, start: nat): seq<byte>
    requires copy + DIRECTORY_SIZE <= |bytes|
  {
    var placed := ForwarderOffsets(table.functions, forwarders, table.names, FirstName(table));
    var names := NameOffsets(table.functions, forwarders, table.names, FirstName(table));
    Header(bytes, copy, table, start)
    + (WordsBytes(NewFunctions(table, placed, start))
       + (WordsBytes(Shifted(names, start))
          + (OrdinalsBytes(table.names)
             + (Terminated(table.moduleName) + StringsBytes(table.functions, forwarders, table.names)))))
  }

  function Start(placed: seq<Placed>, known: Option<nat>): Option<nat> {
    if known.None? then Inferred(placed)
    else known
  }

  /** Every address that is written down has to fit 32 bits. */
  predicate Fits(table: Table, forwarders: seq<Forwarder>, start: nat) {
    var placed := ForwarderOffsets(table.functions, forwarders, table.names, FirstName(table));
    var names := NameOffsets(table.functions, forwarders, table.names, FirstName(table));
    start + ModuleOffset(table) < U32 && AllWords(NewFunctions(table, placed, start)) && AllWords(Shifted(names, start))
  }

  function LinkerLayout(bytes: seq<byte>, copy: nat, forwarders: seq<Forwarder>, known: Option<nat>): Option<(nat, seq<byte>)> {
    var table :- ReadExports(bytes, copy);
    var placed := ForwarderOffsets(table.functions, forwarders, table.names, FirstName(table));
    if |placed| != |forwarders| then None
    else
      var start :- Start(placed, known);
      if !Fits(table, forwarders, start) then None else Some((start, Block(bytes, copy, table, forwarders, start)))
  }

  /** The module's name comes right behind the tables, so it tells where they start. */
  function LinkerStart(bytes: seq<byte>, copy: nat): Option<nat> {
    var functionCount :- ReadU32(bytes, copy + FUNCTION_COUNT_OFFSET);
    var nameCount :- ReadU32(bytes, copy + NAME_COUNT_OFFSET);
    var name :- ReadU32(bytes, copy + NAME_OFFSET);
    var tables := functionCount * 4 + nameCount * 6 + DIRECTORY_SIZE;
    if name >= tables then Some(name - tables) else None
  }

  // ----- reading the parts back

  lemma {:induction false} WordsRoundTrip(image: seq<byte>, at: nat, words: seq<nat>)
    requires StartsAt(image, at, WordsBytes(words)) && AllWords(words)
    ensures ReadWords(image, at, |words|) == Some(words)
    decreases |words|
  {
    hide U32Bytes, U32At, StartsAt;
    if words != [] {
      assert words[0] in words && forall w :: w in words[1..] ==> w in words;
      StartsWith(image, at, U32Bytes(words[0]), WordsBytes(words[1..]));
      U32Reads(image, at, words[0]);
      WordsRoundTrip(image, at + 4, words[1..]);
      assert [words[0]] + words[1..] == words;
    }
  }

  ghost predicate ProperNames(names: seq<Named>) {
    forall n :: n in names ==> Proper(n.name) && n.index < 0x1_0000
  }

  lemma {:induction false} NamesReadAreProper(bytes: seq<byte>, names: nat, ordinals: nat, count: nat)
    requires ReadNames(bytes, names, ordinals, count).Some?
    ensures |ReadNames(bytes, names, ordinals, count).value| == count && ProperNames(ReadNames(bytes, names, ordinals, count).value)
    decreases count
  {
    hide ReadText, Proper, U32At;
    if count > 0 {
      TextsReadAreProper(bytes, ReadU32(bytes, names).value);
      NamesReadAreProper(bytes, names + 4, ordinals + 2, count - 1);
    }
  }

  lemma {:induction false} WordsReadAreCounted(bytes: seq<byte>, at: nat, count: nat)
    requires ReadWords(bytes, at, count).Some?
    ensures |ReadWords(bytes, at, count).value| == count
    decreases count
  {
    hide U32At;
    if count > 0 {
      WordsReadAreCounted(bytes, at + 4, count - 1);
    }
  }

  /** Every offset of the first pass is where the second pass wrote that name. */
  lemma {:induction false} NamesRoundTrip(
      image: seq<byte>, start: nat, cursor: nat, nameAt: nat, ordinalAt: nat, functions: seq<nat>, forwarders: seq<Forwarder>,
      names: seq<Named>)
    requires ProperNames(names) && AllWords(Shifted(NameOffsets(functions, forwarders, names, cursor), start))
    requires StartsAt(image, nameAt, WordsBytes(Shifted(NameOffsets(functions, forwarders, names, cursor), start)))
    requires StartsAt(image, ordinalAt, OrdinalsBytes(names))
    requires StartsAt(image, start + cursor, StringsBytes(functions, forwarders, names))
    ensures ReadNames(image, nameAt, ordinalAt, |names|) == Some(names)
    decreases |names|
  {
    hide U32Bytes, U32At, U16Bytes, U16At, StartsAt, ReadText, Proper, EntryBytes, ReadU32, ReadU16, AllWords, Shifted;
    if names != [] {
      var n, rest := names[0], names[1..];
      var next := cursor + |EntryBytes(functions, forwarders, n)|;
      var offsets := NameOffsets(functions, forwarders, rest, next);
      assert n in names && forall x :: x in rest ==> x in names;
      ShiftedStep(cursor, offsets, start);
      StartsWith(image, nameAt, U32Bytes(start + cursor), WordsBytes(Shifted(offsets, start)));
      U32Reads(image, nameAt, start + cursor);
      StartsWith(image, ordinalAt, U16Bytes(n.index), OrdinalsBytes(rest));
      U16Reads(image, ordinalAt, n.index);
      StartsWith(image, start + cursor, EntryBytes(functions, forwarders, n), StringsBytes(functions, forwarders, rest));
      NameReads(image, start + cursor, functions, forwarders, n);
      NamesRoundTrip(image, start, next, nameAt + 4, ordinalAt + 2, functions, forwarders, rest);
      assert [Named(n.name, n.index)] + rest == names;
    }
  }

  lemma ShiftedStep(first: nat, rest: seq<nat>, start: nat)
    ensures Shifted([first] + rest, start) == [start + first] + Shifted(rest, start)
    ensures WordsBytes(Shifted([first] + rest, start)) == U32Bytes(start + first) + WordsBytes(Shifted(rest, start))
    ensures AllWords(Shifted([first] + rest, start)) ==> start + first < U32 && AllWords(Shifted(rest, start))
  {
    hide U32Bytes;
    var all := Shifted([first] + rest, start);
    assert all == [start + first] + Shifted(rest, start);
    assert all[1..] == Shifted(rest, start) && all[0] in all;
    assert forall w :: w in Shifted(rest, start) ==> w in all;
  }

  lemma NameReads(image: seq<byte>, at: nat, functions: seq<nat>, forwarders: seq<Forwarder>, named: Named)
    requires Proper(named.name) && StartsAt(image, at, EntryBytes(functions, forwarders, named))
    ensures ReadText(image, at) == Some(named.name)
    ensures ForwarderOf(functions, forwarders, named).Some? ==>
      StartsAt(image, at + |named.name| + 1, Terminated(ForwarderOf(functions, forwarders, named).value.text))
  {
    hide ReadText, Proper, ForwarderOf, StartsAt;
    var forwarder := ForwarderOf(functions, forwarders, named);
    StartsWith(image, at, Terminated(named.name), if forwarder.Some? then Terminated(forwarder.value.text) else []);
    TextRoundTrip(image, at, named.name);
  }

  // ----- the directory

  lemma HeaderTells(bytes: seq<byte>, copy: nat, table: Table, start: nat, image: seq<byte>)
    requires copy + DIRECTORY_SIZE <= |bytes| && StartsAt(image, start, Header(bytes, copy, table, start))
    requires start + ModuleOffset(table) < U32
    ensures ReadU32(image, start + NAME_OFFSET) == Some(start + ModuleOffset(table))
    ensures ReadU32(image, start + FUNCTIONS_OFFSET) == Some(start + DIRECTORY_SIZE)
    ensures ReadU32(image, start + NAMES_OFFSET) == Some(start + NameTable(table))
    ensures ReadU32(image, start + ORDINALS_OFFSET) == Some(start + OrdinalTable(table))
    ensures ReadU32(image, start + FUNCTION_COUNT_OFFSET) == ReadU32(bytes, copy + FUNCTION_COUNT_OFFSET)
    ensures ReadU32(image, start + NAME_COUNT_OFFSET) == ReadU32(bytes, copy + NAME_COUNT_OFFSET)
  {
    hide U32Bytes, U32At, ReadU32, Header;
    var header := Header(bytes, copy, table, start);
    HeaderFields(bytes, copy, table, start);
    FieldReads(image, start, header, NAME_OFFSET, start + ModuleOffset(table));
    FieldReads(image, start, header, FUNCTIONS_OFFSET, start + DIRECTORY_SIZE);
    FieldReads(image, start, header, NAMES_OFFSET, start + NameTable(table));
    FieldReads(image, start, header, ORDINALS_OFFSET, start + OrdinalTable(table));
    CopiedField(image, start, header, bytes, copy, FUNCTION_COUNT_OFFSET);
    CopiedField(image, start, header, bytes, copy, NAME_COUNT_OFFSET);
  }

  lemma HeaderFields(bytes: seq<byte>, copy: nat, table: Table, start: nat)
    requires copy + DIRECTORY_SIZE <= |bytes|
    ensures var header := Header(bytes, copy, table, start);
      && header[NAME_OFFSET..NAME_OFFSET + 4] == U32Bytes(start + ModuleOffset(table))
      && header[FUNCTIONS_OFFSET..FUNCTIONS_OFFSET + 4] == U32Bytes(start + DIRECTORY_SIZE)
      && header[NAMES_OFFSET..NAMES_OFFSET + 4] == U32Bytes(start + NameTable(table))
      && header[ORDINALS_OFFSET..ORDINALS_OFFSET + 4] == U32Bytes(start + OrdinalTable(table))
      && header[FUNCTION_COUNT_OFFSET..FUNCTION_COUNT_OFFSET + 8]
         == bytes[copy + FUNCTION_COUNT_OFFSET..copy + FUNCTION_COUNT_OFFSET + 8]
  {
    hide U32Bytes;
    var source, header := bytes[copy..copy + DIRECTORY_SIZE], Header(bytes, copy, table, start);
    assert header[FUNCTION_COUNT_OFFSET..FUNCTION_COUNT_OFFSET + 8] == source[FUNCTION_COUNT_OFFSET..FUNCTION_COUNT_OFFSET + 8];
    SliceOfSlice(bytes, copy, copy + DIRECTORY_SIZE, FUNCTION_COUNT_OFFSET, FUNCTION_COUNT_OFFSET + 8);
  }

  lemma SliceOfSlice(s: seq<byte>, a: nat, b: nat, i: nat, j: nat)
    requires a <= b <= |s| && i <= j <= b - a
    ensures s[a..b][i..j] == s[a + i..a + j]
  {
    var part, whole := s[a..b][i..j], s[a + i..a + j];
    forall k | 0 <= k < j - i
      ensures part[k] == whole[k]
    {
      assert part[k] == s[a..b][i + k] == s[a + (i + k)];
    }
  }

  lemma FieldReads(image: seq<byte>, start: nat, header: seq<byte>, offset: nat, value: nat)
    requires StartsAt(image, start, header) && offset + 4 <= |header| && header[offset..offset + 4] == U32Bytes(value) && value < U32
    ensures ReadU32(image, start + offset) == Some(value)
  {
    hide U32Bytes, U32At;
    SliceOfSlice(image, start, start + |header|, offset, offset + 4);
    assert start + (offset + 4) == start + offset + 4;
    U32Reads(image, start + offset, value);
  }

  lemma CopiedField(image: seq<byte>, start: nat, header: seq<byte>, bytes: seq<byte>, copy: nat, offset: nat)
    requires StartsAt(image, start, header) && |header| == DIRECTORY_SIZE && copy + DIRECTORY_SIZE <= |bytes|
    requires offset == FUNCTION_COUNT_OFFSET || offset == NAME_COUNT_OFFSET
    requires header[FUNCTION_COUNT_OFFSET..FUNCTION_COUNT_OFFSET + 8]
          == bytes[copy + FUNCTION_COUNT_OFFSET..copy + FUNCTION_COUNT_OFFSET + 8]
    ensures ReadU32(image, start + offset) == ReadU32(bytes, copy + offset)
  {
    hide U32At;
    var at := offset - FUNCTION_COUNT_OFFSET;
    SliceOfSlice(image, start, start + DIRECTORY_SIZE, offset, offset + 4);
    SliceOfSlice(header, FUNCTION_COUNT_OFFSET, FUNCTION_COUNT_OFFSET + 8, at, at + 4);
    SliceOfSlice(bytes, copy + FUNCTION_COUNT_OFFSET, copy + FUNCTION_COUNT_OFFSET + 8, at, at + 4);
    assert start + (offset + 4) == start + offset + 4;
    SameField(image, start + offset, bytes, copy + offset);
  }

  lemma SameField(a: seq<byte>, i: nat, b: seq<byte>, j: nat)
    requires i + 4 <= |a| && j + 4 <= |b| && a[i..i + 4] == b[j..j + 4]
    ensures ReadU32(a, i) == ReadU32(b, j)
  {
    var part := a[i..i + 4];
    assert a[i] == part[0] == b[j] && a[i + 1] == part[1] == b[j + 1];
    assert a[i + 2] == part[2] == b[j + 2] && a[i + 3] == part[3] == b[j + 3];
  }

  // ----- the block reads back

  lemma TablesReadAreSound(bytes: seq<byte>, copy: nat)
    requires ReadExports(bytes, copy).Some?
    ensures var table := ReadExports(bytes, copy).value;
      && copy + DIRECTORY_SIZE <= |bytes| && Proper(table.moduleName) && ProperNames(table.names)
      && ReadU32(bytes, copy + FUNCTION_COUNT_OFFSET).Some? && ReadU32(bytes, copy + NAME_COUNT_OFFSET).Some?
      && |table.functions| == Clamp(ReadU32(bytes, copy + FUNCTION_COUNT_OFFSET).value)
      && |table.names| == Clamp(ReadU32(bytes, copy + NAME_COUNT_OFFSET).value)
  {
    hide ReadWords, ReadNames, ReadText, U32At, Proper, ProperNames;
    var functionTable := ReadU32(bytes, copy + FUNCTIONS_OFFSET).value;
    WordsReadAreCounted(bytes, functionTable, Clamp(ReadU32(bytes, copy + FUNCTION_COUNT_OFFSET).value));
    TextsReadAreProper(bytes, ReadU32(bytes, copy + NAME_OFFSET).value);
    NamesReadAreProper(bytes, ReadU32(bytes, copy + NAMES_OFFSET).value, ReadU32(bytes, copy + ORDINALS_OFFSET).value,
                       Clamp(ReadU32(bytes, copy + NAME_COUNT_OFFSET).value));
  }

  function PlacedOf(table: Table, forwarders: seq<Forwarder>): seq<Placed> {
    ForwarderOffsets(table.functions, forwarders, table.names, FirstName(table))
  }

  /** Where the parts of the block stand in an image that holds it. */
  lemma PartsStand(bytes: seq<byte>, copy: nat, table: Table, forwarders: seq<Forwarder>, start: nat, image: seq<byte>)
    requires copy + DIRECTORY_SIZE <= |bytes| && StartsAt(image, start, Block(bytes, copy, table, forwarders, start))
    ensures var names := NameOffsets(table.functions, forwarders, table.names, FirstName(table));
      && StartsAt(image, start, Header(bytes, copy, table, start))
      && StartsAt(image, start + DIRECTORY_SIZE, WordsBytes(NewFunctions(table, PlacedOf(table, forwarders), start)))
      && StartsAt(image, start + NameTable(table), WordsBytes(Shifted(names, start)))
      && StartsAt(image, start + OrdinalTable(table), OrdinalsBytes(table.names))
      && StartsAt(image, start + ModuleOffset(table), Terminated(table.moduleName))
      && StartsAt(image, start + FirstName(table), StringsBytes(table.functions, forwarders, table.names))
  {
    hide Header, NewFunctions, WordsBytes, Shifted, OrdinalsBytes, Terminated, StringsBytes, NameOffsets, ForwarderOffsets, StartsAt;
    var names := NameOffsets(table.functions, forwarders, table.names, FirstName(table));
    var header, functions := Header(bytes, copy, table, start), WordsBytes(NewFunctions(table, PlacedOf(table, forwarders), start));
    var pointers, ordinals := WordsBytes(Shifted(names, start)), OrdinalsBytes(table.names);
    var text, strings := Terminated(table.moduleName), StringsBytes(table.functions, forwarders, table.names);
    PartSizes(bytes, copy, table, forwarders, start);
    StartsWith(image, start, header, functions + (pointers + (ordinals + (text + strings))));
    StartsWith(image, start + DIRECTORY_SIZE, functions, pointers + (ordinals + (text + strings)));
    StartsWith(image, start + NameTable(table), pointers, ordinals + (text + strings));
    StartsWith(image, start + OrdinalTable(table), ordinals, text + strings);
    StartsWith(image, start + ModuleOffset(table), text, strings);
  }

  lemma PartSizes(bytes: seq<byte>, copy: nat, table: Table, forwarders: seq<Forwarder>, start: nat)
    requires copy + DIRECTORY_SIZE <= |bytes|
    ensures |Header(bytes, copy, table, start)| == DIRECTORY_SIZE
    ensures |WordsBytes(NewFunctions(table, PlacedOf(table, forwarders), start))| == 4 * |table.functions|
    ensures |WordsBytes(Shifted(NameOffsets(table.functions, forwarders, table.names, FirstName(table)), start))| == 4 * |table.names|
    ensures |OrdinalsBytes(table.names)| == 2 * |table.names| && |Terminated(table.moduleName)| == |table.moduleName| + 1
  {
  }

  /** The same names, ordinals and module name, and functions that moved only with their forwarders. */
  lemma ExportsRoundTrip(bytes: seq<byte>, copy: nat, forwarders: seq<Forwarder>, known: Option<nat>, image: seq<byte>)
    requires LinkerLayout(bytes, copy, forwarders, known).Some?
    requires var (start, block) := LinkerLayout(bytes, copy, forwarders, known).value; StartsAt(image, start, block)
    ensures ReadExports(bytes, copy).Some?
    ensures var (start, block) := LinkerLayout(bytes, copy, forwarders, known).value;
      var table := ReadExports(bytes, copy).value;
      ReadExports(image, start)
      == Some(Table(table.moduleName, NewFunctions(table, PlacedOf(table, forwarders), start), table.names))
  {
    hide Block, NewFunctions, ReadNames, ReadWords, ReadText, ReadU32, Shifted, NameOffsets, ForwarderOffsets, StartsAt, Proper,
      ProperNames, OrdinalsBytes, StringsBytes, WordsBytes, AllWords, Inferred, Header;
    var table := ReadExports(bytes, copy).value;
    var (start, block) := LinkerLayout(bytes, copy, forwarders, known).value;
    var functions := NewFunctions(table, PlacedOf(table, forwarders), start);
    TablesReadAreSound(bytes, copy);
    PartsStand(bytes, copy, table, forwarders, start, image);
    HeaderTells(bytes, copy, table, start, image);
    WordsRoundTrip(image, start + DIRECTORY_SIZE, functions);
    NewFunctionsCount(table, PlacedOf(table, forwarders), start);
    TextRoundTrip(image, start + ModuleOffset(table), table.moduleName);
    NamesRoundTrip(image, start, FirstName(table), start + NameTable(table), start + OrdinalTable(table), table.functions,
                   forwarders, table.names);
  }

  lemma NewFunctionsCount(table: Table, placed: seq<Placed>, start: nat)
    ensures |NewFunctions(table, placed, start)| == |table.functions|
  {
  }

  // ----- what became of the forwarders

  /** A placed forwarder is some name's, and its text stands at its offset. */
  lemma {:induction false} ForwarderStands(
      image: seq<byte>, start: nat, cursor: nat, functions: seq<nat>, forwarders: seq<Forwarder>, names: seq<Named>, p: Placed)
    requires StartsAt(image, start + cursor, StringsBytes(functions, forwarders, names)) && ProperNames(names)
    requires p in ForwarderOffsets(functions, forwarders, names, cursor)
    ensures p.index < |functions| && functions[p.index] == p.rva && Find(forwarders, p.rva).Some?
    ensures StartsAt(image, start + p.offset, Terminated(Find(forwarders, p.rva).value.text))
    decreases |names|
  {
    hide StartsAt, Proper, Terminated;
    var n, rest := names[0], names[1..];
    var next := cursor + |EntryBytes(functions, forwarders, n)|;
    var forwarder := ForwarderOf(functions, forwarders, n);
    assert n in names && forall x :: x in rest ==> x in names;
    StartsWith(image, start + cursor, EntryBytes(functions, forwarders, n), StringsBytes(functions, forwarders, rest));
    if forwarder.Some? && p == Placed(n.index, forwarder.value.rva, cursor + |n.name| + 1) {
      NameReads(image, start + cursor, functions, forwarders, n);
    } else {
      ForwarderStands(image, start, next, functions, forwarders, rest, p);
    }
  }

  /** The named functions that a forwarder leads from are the ones that are placed. */
  lemma {:induction false} PlacedIff(functions: seq<nat>, forwarders: seq<Forwarder>, names: seq<Named>, cursor: nat, index: nat)
    ensures FindPlaced(ForwarderOffsets(functions, forwarders, names, cursor), index).Some? <==>
            exists n :: n in names && n.index == index && ForwarderOf(functions, forwarders, n).Some?
    decreases |names|
  {
    hide ForwarderOf;
    if names != [] {
      var n, rest := names[0], names[1..];
      var next := cursor + |EntryBytes(functions, forwarders, n)|;
      PlacedIff(functions, forwarders, rest, next, index);
      assert names == [n] + rest;
      var placed := ForwarderOffsets(functions, forwarders, names, cursor);
      if ForwarderOf(functions, forwarders, n).Some? {
        assert placed[1..] == ForwarderOffsets(functions, forwarders, rest, next);
      } else {
        assert placed == ForwarderOffsets(functions, forwarders, rest, next);
      }
    }
  }

  predicate IsNamed(table: Table, index: nat) {
    exists n :: n in table.names && n.index == index
  }

  /** A named function with a forwarder leads to its forwarder's text in the block; any other keeps its address. */
  lemma ForwardersFollow(
      bytes: seq<byte>, copy: nat, forwarders: seq<Forwarder>, known: Option<nat>, image: seq<byte>, index: nat)
    requires LinkerLayout(bytes, copy, forwarders, known).Some? && forall f :: f in forwarders ==> Proper(f.text)
    requires var (start, block) := LinkerLayout(bytes, copy, forwarders, known).value; StartsAt(image, start, block)
    requires ReadExports(bytes, copy).Some? && index < |ReadExports(bytes, copy).value.functions|
    ensures var start := LinkerLayout(bytes, copy, forwarders, known).value.0;
      var table := ReadExports(bytes, copy).value;
      var forwarder, moved := Find(forwarders, table.functions[index]), NewFunctions(table, PlacedOf(table, forwarders), start)[index];
      if forwarder.Some? && IsNamed(table, index) then ReadText(image, moved) == Some(forwarder.value.text)
      else moved == table.functions[index]
  {
    hide Block, ReadNames, ReadWords, ReadText, ReadU32, NameOffsets, ForwarderOffsets, StartsAt, Proper, ProperNames, StringsBytes,
      Inferred, Terminated, ReadExports, Fits;
    var table := ReadExports(bytes, copy).value;
    var (start, block) := LinkerLayout(bytes, copy, forwarders, known).value;
    var placed := PlacedOf(table, forwarders);
    TablesReadAreSound(bytes, copy);
    BlockIsLaidOut(bytes, copy, forwarders, known);
    PartsStand(bytes, copy, table, forwarders, start, image);
    PlacedIff(table.functions, forwarders, table.names, FirstName(table), index);
    if FindPlaced(placed, index).Some? {
      var p := FindPlaced(placed, index).value;
      ForwarderStands(image, start, FirstName(table), table.functions, forwarders, table.names, p);
      var f := Find(forwarders, p.rva).value;
      ProperForwarder(image, start + p.offset, f);
    }
  }

  lemma BlockIsLaidOut(bytes: seq<byte>, copy: nat, forwarders: seq<Forwarder>, known: Option<nat>)
    requires LinkerLayout(bytes, copy, forwarders, known).Some?
    ensures ReadExports(bytes, copy).Some? && copy + DIRECTORY_SIZE <= |bytes|
    ensures var (start, block) := LinkerLayout(bytes, copy, forwarders, known).value;
      var table := ReadExports(bytes, copy).value;
      block == Block(bytes, copy, table, forwarders, start) && Start(PlacedOf(table, forwarders), known) == Some(start)
      && |PlacedOf(table, forwarders)| == |forwarders|
  {
    hide Block, ReadExports, ForwarderOffsets, Inferred, Fits;
    TablesReadAreSound(bytes, copy);
  }

  lemma ProperForwarder(image: seq<byte>, at: nat, f: Forwarder)
    requires Proper(f.text) && StartsAt(image, at, Terminated(f.text))
    ensures ReadText(image, at) == Some(f.text)
  {
    hide Proper, ReadText;
    TextRoundTrip(image, at, f.text);
  }

  /** Without a known start, the layout is taken only if it leaves every function where it was. */
  lemma InferredStartKeepsFunctions(bytes: seq<byte>, copy: nat, forwarders: seq<Forwarder>, index: nat)
    requires LinkerLayout(bytes, copy, forwarders, None).Some?
    requires ReadExports(bytes, copy).Some? && index < |ReadExports(bytes, copy).value.functions|
    ensures var start := LinkerLayout(bytes, copy, forwarders, None).value.0;
      var table := ReadExports(bytes, copy).value;
      NewFunctions(table, PlacedOf(table, forwarders), start)[index] == table.functions[index]
  {
    hide Block, ForwarderOffsets, ReadExports, StringsBytes;
    var table := ReadExports(bytes, copy).value;
    var placed := PlacedOf(table, forwarders);
    BlockIsLaidOut(bytes, copy, forwarders, None);
    if FindPlaced(placed, index).Some? {
      PlacedRva(table.functions, forwarders, table.names, FirstName(table), FindPlaced(placed, index).value);
    }
  }

  lemma {:induction false} PlacedRva(functions: seq<nat>, forwarders: seq<Forwarder>, names: seq<Named>, cursor: nat, p: Placed)
    requires p in ForwarderOffsets(functions, forwarders, names, cursor)
    ensures p.index < |functions| && functions[p.index] == p.rva
    decreases |names|
  {
    var n, rest := names[0], names[1..];
    var forwarder := ForwarderOf(functions, forwarders, n);
    if !(forwarder.Some? && p == Placed(n.index, forwarder.value.rva, cursor + |n.name| + 1)) {
      PlacedRva(functions, forwarders, rest, cursor + |EntryBytes(functions, forwarders, n)|, p);
    }
  }

  /** Every forwarder gets a place if and only if every forwarded function is named. */
  lemma AllForwardersPlacedIff(table: Table, forwarders: seq<Forwarder>)
    ensures (forall i :: 0 <= i < |table.functions| && Find(forwarders, table.functions[i]).Some? ==>
               FindPlaced(PlacedOf(table, forwarders), i).Some?)
       <==> (forall i :: 0 <= i < |table.functions| && Find(forwarders, table.functions[i]).Some? ==> IsNamed(table, i))
  {
    hide ForwarderOffsets, FirstName;
    forall i | 0 <= i < |table.functions| && Find(forwarders, table.functions[i]).Some?
      ensures FindPlaced(PlacedOf(table, forwarders), i).Some? <==> IsNamed(table, i)
    {
      PlacedIff(table.functions, forwarders, table.names, FirstName(table), i);
    }
  }

  /** The final cursor. */
  function BlockSize(table: Table, forwarders: seq<Forwarder>): nat {
    FirstName(table) + |StringsBytes(table.functions, forwarders, table.names)|
  }

  /** The block ends where the first pass ended. */
  lemma BlockLength(bytes: seq<byte>, copy: nat, table: Table, forwarders: seq<Forwarder>, start: nat)
    requires copy + DIRECTORY_SIZE <= |bytes|
    ensures |Block(bytes, copy, table, forwarders, start)| == BlockSize(table, forwarders)
  {
    hide Header, NewFunctions, WordsBytes, Shifted, OrdinalsBytes, StringsBytes, NameOffsets, ForwarderOffsets;
    PartSizes(bytes, copy, table, forwarders, start);
  }

  /** In an image that holds the block, its start is found again, unless a count was cut. */
  lemma StartIsFoundIff(bytes: seq<byte>, copy: nat, forwarders: seq<Forwarder>, known: Option<nat>, image: seq<byte>)
    requires LinkerLayout(bytes, copy, forwarders, known).Some?
    requires var (start, block) := LinkerLayout(bytes, copy, forwarders, known).value; StartsAt(image, start, block)
    ensures ReadU32(bytes, copy + FUNCTION_COUNT_OFFSET).Some? && ReadU32(bytes, copy + NAME_COUNT_OFFSET).Some?
    ensures var start := LinkerLayout(bytes, copy, forwarders, known).value.0;
      LinkerStart(image, start) == Some(start)
      <==> ReadU32(bytes, copy + FUNCTION_COUNT_OFFSET).value <= MAX_ENTRIES && ReadU32(bytes, copy + NAME_COUNT_OFFSET).value <= MAX_ENTRIES
  {
    hide Block, ReadExports, StartsAt, ForwarderOffsets, Inferred, Header, NewFunctions, WordsBytes, Shifted, OrdinalsBytes,
      StringsBytes, NameOffsets, ReadU32, Proper, ProperNames, Terminated;
    var table := ReadExports(bytes, copy).value;
    var (start, block) := LinkerLayout(bytes, copy, forwarders, known).value;
    TablesReadAreSound(bytes, copy);
    BlockIsLaidOut(bytes, copy, forwarders, known);
    PartsStand(bytes, copy, table, forwarders, start, image);
    HeaderTells(bytes, copy, table, start, image);
  }

  // ----- pass by pass

  method FirstPass(table: Table, forwarders: seq<Forwarder>, known: bool)
    returns (ok: bool, offsets: seq<nat>, placed: seq<Placed>, inferred: Option<nat>)
    ensures !ok ==> !known && Inferred(PlacedOf(table, forwarders)).None?
    ensures ok ==> offsets == NameOffsets(table.functions, forwarders, table.names, FirstName(table))
    ensures ok ==> placed == PlacedOf(table, forwarders) && (known || inferred == Inferred(placed))
  {
    hide FirstName, ForwarderOf, EntryBytes, NameOffsets, ForwarderOffsets, SameStart, Inferred;
    NothingYet();
    var cursor: nat := FirstName(table);
    ok, offsets, placed, inferred := true, [], [], None;
    var names := table.names;
    assert names[0..] == names;
    for i := 0 to |names|
      invariant NameOffsets(table.functions, forwarders, names, FirstName(table))
             == offsets + NameOffsets(table.functions, forwarders, names[i..], cursor)
      invariant PlacedOf(table, forwarders) == placed + ForwarderOffsets(table.functions, forwarders, names[i..], cursor)
      invariant known || SameStart(placed, inferred)
    {
      var n := names[i];
      assert names[i..][0] == n && names[i..][1..] == names[i + 1..];
      var forwarder := ForwarderOf(table.functions, forwarders, n);
      NextOffsets(table.functions, forwarders, names[i..], cursor, offsets, placed);
      offsets := offsets + [cursor];
      EntrySize(table.functions, forwarders, n);
      if forwarder.Some? {
        var p := Placed(n.index, forwarder.value.rva, cursor + |n.name| + 1);
        if !known {
          if p.rva < p.offset || (inferred.Some? && inferred.value != p.rva - p.offset) {
            NothingInferred(placed, p, inferred, ForwarderOffsets(table.functions, forwarders, names[i + 1..], cursor
                                                                  + |EntryBytes(table.functions, forwarders, n)|));
            return false, offsets, placed, inferred;
          }
          OneMoreStart(placed, p, inferred);
          inferred := Some(p.rva - p.offset);
        }
        placed := placed + [p];
        cursor := cursor + |n.name| + 1 + |forwarder.value.text| + 1;
      } else {
        cursor := cursor + |n.name| + 1;
      }
    }
    assert names[|names|..] == [];
    NoOffsets(table.functions, forwarders, cursor, offsets, placed);
    if !known {
      AllInferred(placed, inferred);
    }
  }

  /** So far, all forwarders tell the same start. */
  ghost predicate SameStart(placed: seq<Placed>, inferred: Option<nat>) {
    if placed == [] then inferred.None?
    else inferred.Some? && forall p :: p in placed ==> p.rva >= p.offset && p.rva - p.offset == inferred.value
  }

  lemma EntrySize(functions: seq<nat>, forwarders: seq<Forwarder>, named: Named)
    ensures |EntryBytes(functions, forwarders, named)|
         == |named.name| + 1
            + (if ForwarderOf(functions, forwarders, named).Some? then |ForwarderOf(functions, forwarders, named).value.text| + 1 else 0)
  {
  }

  lemma NextOffsets(
      functions: seq<nat>, forwarders: seq<Forwarder>, names: seq<Named>, cursor: nat, offsets: seq<nat>, placed: seq<Placed>)
    requires names != []
    ensures var forwarder := ForwarderOf(functions, forwarders, names[0]);
      var next := cursor + |EntryBytes(functions, forwarders, names[0])|;
      && offsets + NameOffsets(functions, forwarders, names, cursor)
         == offsets + [cursor] + NameOffsets(functions, forwarders, names[1..], next)
      && placed + ForwarderOffsets(functions, forwarders, names, cursor)
         == placed + (if forwarder.Some? then [Placed(names[0].index, forwarder.value.rva, cursor + |names[0].name| + 1)] else [])
            + ForwarderOffsets(functions, forwarders, names[1..], next)
  {
    hide ForwarderOf, EntryBytes;
    var forwarder := ForwarderOf(functions, forwarders, names[0]);
    var next := cursor + |EntryBytes(functions, forwarders, names[0])|;
    var first := if forwarder.Some? then [Placed(names[0].index, forwarder.value.rva, cursor + |names[0].name| + 1)] else [];
    Regroup(offsets, [cursor], NameOffsets(functions, forwarders, names[1..], next));
    Regroup(placed, first, ForwarderOffsets(functions, forwarders, names[1..], next));
  }

  lemma Regroup<T>(a: seq<T>, b: seq<T>, c: seq<T>)
    ensures a + (b + c) == a + b + c
  {
  }

  lemma NothingYet()
    ensures SameStart([], None)
  {
  }

  lemma NoOffsets(functions: seq<nat>, forwarders: seq<Forwarder>, cursor: nat, offsets: seq<nat>, placed: seq<Placed>)
    ensures offsets + NameOffsets(functions, forwarders, [], cursor) == offsets
    ensures placed + ForwarderOffsets(functions, forwarders, [], cursor) == placed
  {
  }

  lemma OneMoreStart(placed: seq<Placed>, p: Placed, inferred: Option<nat>)
    requires SameStart(placed, inferred) && p.rva >= p.offset && (inferred.None? || inferred.value == p.rva - p.offset)
    ensures SameStart(placed + [p], Some(p.rva - p.offset))
  {
  }

  lemma NothingInferred(placed: seq<Placed>, p: Placed, inferred: Option<nat>, more: seq<Placed>)
    requires SameStart(placed, inferred)
    requires p.rva < p.offset || (inferred.Some? && inferred.value != p.rva - p.offset)
    ensures Inferred(placed + [p] + more).None?
  {
    var all := placed + [p] + more;
    assert all[|placed|] == p && p in all;
    if placed != [] {
      assert all[0] == placed[0] && placed[0] in placed;
    }
  }

  lemma AllInferred(placed: seq<Placed>, inferred: Option<nat>)
    requires SameStart(placed, inferred)
    ensures inferred == Inferred(placed)
  {
    if placed != [] {
      assert placed[0] in placed;
    }
  }

  method AppendWords(start: seq<byte>, words: seq<nat>) returns (r: Option<seq<byte>>)
    ensures r == if AllWords(words) then Some(start + WordsBytes(words)) else None
  {
    hide U32Bytes;
    var block := start;
    assert words[0..] == words;
    for i := 0 to |words|
      invariant start + WordsBytes(words) == block + WordsBytes(words[i..])
      invariant forall j :: 0 <= j < i ==> words[j] < U32
    {
      if words[i] >= U32 {
        assert words[i] in words;
        return None;
      }
      assert words[i..][1..] == words[i + 1..];
      Grouping(block, U32Bytes(words[i]), WordsBytes(words[i + 1..]));
      block := block + U32Bytes(words[i]);
    }
    assert words[|words|..] == [] && block + [] == block;
    return Some(block);
  }

  method AppendOrdinals(start: seq<byte>, names: seq<Named>) returns (block: seq<byte>)
    ensures block == start + OrdinalsBytes(names)
  {
    hide U16Bytes;
    block := start;
    assert names[0..] == names;
    for i := 0 to |names|
      invariant start + OrdinalsBytes(names) == block + OrdinalsBytes(names[i..])
    {
      assert names[i..][1..] == names[i + 1..];
      Grouping(block, U16Bytes(names[i].index), OrdinalsBytes(names[i + 1..]));
      block := block + U16Bytes(names[i].index);
    }
    assert names[|names|..] == [] && block + [] == block;
  }

  method AppendStrings(start: seq<byte>, functions: seq<nat>, forwarders: seq<Forwarder>, names: seq<Named>) returns (block: seq<byte>)
    ensures block == start + StringsBytes(functions, forwarders, names)
  {
    hide ForwarderOf;
    block := start;
    assert names[0..] == names;
    for i := 0 to |names|
      invariant start + StringsBytes(functions, forwarders, names) == block + StringsBytes(functions, forwarders, names[i..])
    {
      assert names[i..][1..] == names[i + 1..];
      var forwarder := ForwarderOf(functions, forwarders, names[i]);
      var entry := names[i].name + [0];
      Grouping(block, EntryBytes(functions, forwarders, names[i]), StringsBytes(functions, forwarders, names[i + 1..]));
      if forwarder.Some? {
        Grouping(block, entry, forwarder.value.text + [0]);
        block := block + entry + (forwarder.value.text + [0]);
      } else {
        assert entry + [] == entry;
        block := block + entry;
      }
    }
    assert names[|names|..] == [] && block + [] == block;
  }

  method LayOutExports(bytes: seq<byte>, copy: nat, forwarders: seq<Forwarder>, known: Option<nat>) returns (r: Option<(nat, seq<byte>)>)
    ensures r == LinkerLayout(bytes, copy, forwarders, known)
  {
    hide ReadExports, ForwarderOffsets, NameOffsets, Inferred, Header, OrdinalsBytes, StringsBytes, WordsBytes, AllWords,
      NewFunctions, Shifted, Proper, ProperNames;
    var read := ReadExports(bytes, copy);
    if read.None? {
      return None;
    }
    var table := read.value;
    TablesReadAreSound(bytes, copy);
    var ok, offsets, placed, inferred := FirstPass(table, forwarders, known.Some?);
    if !ok || |placed| != |forwarders| {
      return None;
    }
    var base := if known.Some? then known else inferred;
    if base.None? || base.value + ModuleOffset(table) >= U32 {
      return None;
    }
    var start := base.value;
    var functions := AppendWords(Header(bytes, copy, table, start), NewFunctions(table, placed, start));
    if functions.None? {
      return None;
    }
    var names := AppendWords(functions.value, Shifted(offsets, start));
    if names.None? {
      return None;
    }
    var block := AppendOrdinals(names.value, table.names);
    block := block + (table.moduleName + [0]);
    block := AppendStrings(block, table.functions, forwarders, table.names);
    BlockTogether(Header(bytes, copy, table, start), WordsBytes(NewFunctions(table, placed, start)), WordsBytes(Shifted(offsets, start)),
                  OrdinalsBytes(table.names), table.moduleName + [0], StringsBytes(table.functions, forwarders, table.names));
    return Some((start, block));
  }

  lemma BlockTogether(a: seq<byte>, b: seq<byte>, c: seq<byte>, d: seq<byte>, e: seq<byte>, f: seq<byte>)
    ensures a + b + c + d + e + f == a + (b + (c + (d + (e + f))))
  {
  }
}
