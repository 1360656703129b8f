/**
  * The rebuilt import section: where its descriptors, lookup tables, names and module names stand,
  * and what the reader of import tables makes of them.
  */
module Imports {
  import opened Wrappers
  import opened Buffers
  import opened Bytes
  import opened Texts

  const DESCRIPTOR_SIZE := 20
  const NAME_OFFSET := 12
  const IAT_OFFSET := 16
  const HINT_SIZE := 2
  const MAX_DESCRIPTORS := 4096
  const MAX_THUNKS := 65536
  const ORDINAL_FLAG := 0x8000_0000

  /** An import by name; without one, by ordinal. */
  datatype Entry = Entry(name: Option<Text>, ordinal: nat)

  datatype Group = Group(moduleName: Text, firstThunk: nat, entries: seq<Entry>)

  // ----- the layout

  /** Lookup tables are aligned to the thunks they hold, four bytes wide or eight. */
  function ThunkWidth(wide: bool): nat {
    if wide then 8 else 4
  }

  function ThunkBytes(value: nat, wide: bool): (r: seq<byte>)
    ensures |r| == ThunkWidth(wide)
  {
    if wide then U32Bytes(value % U32) + U32Bytes(value / U32) else U32Bytes(value)
  }

  function Flag(wide: bool): nat {
    if wide then ORDINAL_FLAG * U32 else ORDINAL_FLAG
  }

  /** A hint, the name and its end, on an even offset. */
  function NameBytes(at: nat, entry: Entry): seq<byte> {
    match entry.name
    case None => []
    case Some(name) => Zeros(at % 2) + ([0, 0] + (name + [0]))
  }

  function NamesBytes(at: nat, entries: seq<Entry>): seq<byte>
    decreases |entries|
  {
    if entries == [] then []
    else NameBytes(at, entries[0]) + NamesBytes(at + |NameBytes(at, entries[0])|, entries[1..])
  }

  function Thunk(rva: nat, at: nat, entry: Entry, wide: bool): nat {
    if entry.name.Some? then rva + at + at % 2 else Flag(wide) + entry.ordinal % 0x1_0000
  }

  /** One thunk for each entry, whose names start at `at`. */
  function ThunksBytes(rva: nat, at: nat, entries: seq<Entry>, wide: bool): (r: seq<byte>)
    ensures |r| == |entries| * ThunkWidth(wide)
    decreases |entries|
  {
    if entries == [] then []
    else
      ThunkBytes(Thunk(rva, at, entries[0], wide), wide)
      + ThunksBytes(rva, at + |NameBytes(at, entries[0])|, entries[1..], wide)
  }

  function LookupAt(at: nat, wide: bool): nat {
    at + Gap(at, ThunkWidth(wide))
  }

  function NamesAt(at: nat, group: Group, wide: bool): nat {
    LookupAt(at, wide) + (|group.entries| + 1) * ThunkWidth(wide)
  }

  function ModuleAt(at: nat, group: Group, wide: bool): nat {
    NamesAt(at, group, wide) + |NamesBytes(NamesAt(at, group, wide), group.entries)|
  }

  /** A group's lookup table with its empty end, its names, and the name of its module. */
  function Blob(rva: nat, at: nat, group: Group, wide: bool): (r: seq<byte>)
    ensures at + |r| == ModuleAt(at, group, wide) + |group.moduleName| + 1
  {
    var names := NamesAt(at, group, wide);
    Zeros(Gap(at, ThunkWidth(wide)))
    + (ThunksBytes(rva, names, group.entries, wide) + Zeros(ThunkWidth(wide))
       + (NamesBytes(names, group.entries) + (group.moduleName + [0])))
  }

  function Blobs(rva: nat, at: nat, groups: seq<Group>, wide: bool): seq<byte>
    decreases |groups|
  {
    if groups == [] then []
    else Blob(rva, at, groups[0], wide) + Blobs(rva, at + |Blob(rva, at, groups[0], wide)|, groups[1..], wide)
  }

  function Descriptor(rva: nat, at: nat, group: Group, wide: bool): (r: seq<byte>)
    ensures |r| == DESCRIPTOR_SIZE
  {
    U32Bytes(rva + LookupAt(at, wide)) + Zeros(8) + U32Bytes(rva + ModuleAt(at, group, wide)) + U32Bytes(group.firstThunk)
  }

  function Descriptors(rva: nat, at: nat, groups: seq<Group>, wide: bool): (r: seq<byte>)
    ensures |r| == DESCRIPTOR_SIZE * |groups|
    decreases |groups|
  {
    if groups == [] then []
    else
      Descriptor(rva, at, groups[0], wide)
      + Descriptors(rva, at + |Blob(rva, at, groups[0], wide)|, groups[1..], wide)
  }

  function HeaderSize(existing: nat, groups: nat): nat {
    existing + DESCRIPTOR_SIZE * (groups + 1)
  }

  /** The descriptors the image still had, the new ones, an empty one, and what they point at. */
  function Payload(existing: seq<byte>, groups: seq<Group>, rva: nat, wide: bool): seq<byte> {
    var start := HeaderSize(|existing|, |groups|);
    existing + (Descriptors(rva, start, groups, wide) + Zeros(DESCRIPTOR_SIZE)) + Blobs(rva, start, groups, wide)
  }

  // ----- what can be written

  predicate Writable(group: Group) {
    && Ascii(group.moduleName) && group.firstThunk < U32
    && forall e :: e in group.entries && e.name.Some? ==> Ascii(e.name.value)
  }

  // ----- reading import tables

  datatype Function = Name(text: Text) | Ordinal(ordinal: nat)

  datatype Module = Module(name: Text, firstThunk: nat, functions: seq<Function>)

  function ReadThunk(image: seq<byte>, at: nat, wide: bool): Option<nat> {
    var low :- ReadU32(image, at);
    if !wide then Some(low)
    else
      var high :- ReadU32(image, at + 4);
      Some(high * U32 + low)
  }

  function ReadFunction(image: seq<byte>, thunk: nat, wide: bool): Option<Function> {
    if thunk >= Flag(wide) then Some(Ordinal(thunk % 0x1_0000))
    else
      var text :- ReadText(image, thunk + HINT_SIZE);
      Some(Name(text))
  }

  function ReadFunctions(image: seq<byte>, at: nat, slots: nat, wide: bool): Option<seq<Function>>
    decreases slots
  {
    if slots == 0 then Some([])
    else
      var thunk :- ReadThunk(image, at, wide);
      if thunk == 0 then Some([])
      else
        var first :- ReadFunction(image, thunk, wide);
        var rest :- ReadFunctions(image, at + ThunkWidth(wide), slots - 1, wide);
        Some([first] + rest)
  }

  /** Borland's linkers leave the names in the address table itself. */
  function ReadModules(image: seq<byte>, at: nat, descriptors: nat, wide: bool): Option<seq<Module>>
    decreases descriptors
  {
    if descriptors == 0 then Some([])
    else
      var lookup :- ReadU32(image, at);
      var name :- ReadU32(image, at + NAME_OFFSET);
      var iat :- ReadU32(image, at + IAT_OFFSET);
      if name == 0 && iat == 0 then Some([])
      else
        var text :- ReadText(image, name);
        var functions :- ReadFunctions(image, if lookup == 0 then iat else lookup, MAX_THUNKS, wide);
        var rest :- ReadModules(image, at + DESCRIPTOR_SIZE, descriptors - 1, wide);
        Some([Module(text, iat, functions)] + rest)
  }

  function ListedImports(image: seq<byte>, at: nat, wide: bool): Option<seq<Module>> {
    ReadModules(image, at, MAX_DESCRIPTORS, wide)
  }

  // ----- what the groups say

  function FunctionOf(entry: Entry): Function {
    if entry.name.Some? then Name(entry.name.value) else Ordinal(entry.ordinal % 0x1_0000)
  }

  function FunctionsOf(entries: seq<Entry>): seq<Function> {
    if entries == [] then [] else [FunctionOf(entries[0])] + FunctionsOf(entries[1..])
  }

  function ModulesOf(groups: seq<Group>): seq<Module> {
    if groups == [] then []
    else [Module(groups[0].moduleName, groups[0].firstThunk, FunctionsOf(groups[0].entries))] + ModulesOf(groups[1..])
  }

  /** Names the reader takes in whole. */
  predicate Readable(group: Group) {
    && Writable(group) && |group.moduleName| < 4096 && |group.entries| <= 65536
    && forall e :: e in group.entries && e.name.Some? ==> |e.name.value| < 4096
  }

  // ----- round trips, part by part

  lemma ThunkRoundTrip(image: seq<byte>, at: nat, value: nat, wide: bool)
    requires value < (if wide then U32 * U32 else U32) && StartsAt(image, at, ThunkBytes(value, wide))
    ensures ReadThunk(image, at, wide) == Some(value)
  {
    hide U32Bytes, U32At;
    if wide {
      StartsWith(image, at, U32Bytes(value % U32), U32Bytes(value / U32));
      U32RoundTrip(image, at, value % U32);
      U32RoundTrip(image, at + 4, value / U32);
    } else {
      U32RoundTrip(image, at, value);
    }
  }

  /** Names lie below the flag that marks ordinals. */
  lemma FunctionRoundTrip(image: seq<byte>, rva: nat, at: nat, entry: Entry, wide: bool)
    requires entry.name.Some? ==> Ascii(entry.name.value) && |entry.name.value| < MAX_NAME_LENGTH
    requires StartsAt(image, rva + at, NameBytes(at, entry)) && rva + at + 1 < ORDINAL_FLAG && rva + at > 0
    ensures 0 < Thunk(rva, at, entry, wide) < (if wide then U32 * U32 else U32)
    ensures ReadFunction(image, Thunk(rva, at, entry, wide), wide) == Some(FunctionOf(entry))
  {
    hide ReadText, Proper, Ascii;
    if entry.name.Some? {
      var name := entry.name.value;
      StartsWith(image, rva + at, Zeros(at % 2), [0, 0] + (name + [0]));
      StartsWith(image, rva + at + at % 2, [0, 0], name + [0]);
      AsciiIsProper(name);
      TextRoundTrip(image, rva + at + at % 2 + 2, name);
    }
  }

  lemma NothingThere(image: seq<byte>, at: nat, wide: bool)
    requires StartsAt(image, at, Zeros(ThunkWidth(wide)))
    ensures ReadThunk(image, at, wide) == Some(0)
  {
    var part := image[at..at + ThunkWidth(wide)];
    assert forall i :: 0 <= i < ThunkWidth(wide) ==> image[at + i] == part[i];
  }

  lemma {:induction false} FunctionsRoundTrip(
      image: seq<byte>, lookup: nat, rva: nat, at: nat, entries: seq<Entry>, slots: nat, wide: bool)
    requires forall e :: e in entries && e.name.Some? ==> Ascii(e.name.value) && |e.name.value| < MAX_NAME_LENGTH
    requires StartsAt(image, lookup, ThunksBytes(rva, at, entries, wide) + Zeros(ThunkWidth(wide)))
    requires StartsAt(image, rva + at, NamesBytes(at, entries))
    requires |entries| <= slots && 0 < rva + at && rva + at + |NamesBytes(at, entries)| + 1 < ORDINAL_FLAG
    ensures ReadFunctions(image, lookup, slots, wide) == Some(FunctionsOf(entries))
    decreases |entries|
  {
    hide ReadThunk, ReadFunction, ThunkBytes, Thunk, NameBytes, StartsAt, Ascii;
    var zeros := Zeros(ThunkWidth(wide));
    if entries == [] {
      assert ThunksBytes(rva, at, entries, wide) + zeros == zeros;
      if slots > 0 {
        NothingThere(image, lookup, wide);
      }
    } else {
      var e := entries[0];
      assert e in entries;
      var thunk := ThunkBytes(Thunk(rva, at, e, wide), wide);
      var next := at + |NameBytes(at, e)|;
      assert ThunksBytes(rva, at, entries, wide) + zeros == thunk + (ThunksBytes(rva, next, entries[1..], wide) + zeros);
      StartsWith(image, lookup, thunk, ThunksBytes(rva, next, entries[1..], wide) + zeros);
      StartsWith(image, rva + at, NameBytes(at, e), NamesBytes(next, entries[1..]));
      FunctionRoundTrip(image, rva, at, e, wide);
      ThunkRoundTrip(image, lookup, Thunk(rva, at, e, wide), wide);
      FunctionsRoundTrip(image, lookup + ThunkWidth(wide), rva, next, entries[1..], slots - 1, wide);
    }
  }

  lemma DescriptorRoundTrip(image: seq<byte>, at: nat, rva: nat, start: nat, group: Group, wide: bool)
    requires StartsAt(image, at, Descriptor(rva, start, group, wide)) && group.firstThunk < U32
    requires rva + ModuleAt(start, group, wide) < U32
    ensures ReadU32(image, at) == Some(rva + LookupAt(start, wide))
    ensures ReadU32(image, at + NAME_OFFSET) == Some(rva + ModuleAt(start, group, wide))
    ensures ReadU32(image, at + IAT_OFFSET) == Some(group.firstThunk)
  {
    hide U32Bytes, U32At, NamesBytes;
    var a, b := U32Bytes(rva + LookupAt(start, wide)), U32Bytes(rva + ModuleAt(start, group, wide));
    var c := U32Bytes(group.firstThunk);
    assert Descriptor(rva, start, group, wide) == a + (Zeros(8) + (b + c));
    StartsWith(image, at, a, Zeros(8) + (b + c));
    StartsWith(image, at + 4, Zeros(8), b + c);
    StartsWith(image, at + 12, b, c);
    U32RoundTrip(image, at, rva + LookupAt(start, wide));
    U32RoundTrip(image, at + 12, rva + ModuleAt(start, group, wide));
    U32RoundTrip(image, at + 16, group.firstThunk);
  }

  /** A group's part of the payload holds its functions and its module's name. */
  lemma BlobRoundTrip(image: seq<byte>, rva: nat, at: nat, group: Group, wide: bool)
    requires Readable(group) && StartsAt(image, rva + at, Blob(rva, at, group, wide))
    requires 0 < at && rva + at + |Blob(rva, at, group, wide)| < ORDINAL_FLAG
    ensures ReadFunctions(image, rva + LookupAt(at, wide), MAX_THUNKS, wide) == Some(FunctionsOf(group.entries))
    ensures ReadText(image, rva + ModuleAt(at, group, wide)) == Some(group.moduleName)
  {
    hide ReadFunctions, ReadText, ThunksBytes, NamesBytes, StartsAt, Ascii, Proper;
    var lookup, namesAt := LookupAt(at, wide), NamesAt(at, group, wide);
    var thunks := ThunksBytes(rva, namesAt, group.entries, wide) + Zeros(ThunkWidth(wide));
    var names, text := NamesBytes(namesAt, group.entries), group.moduleName + [0];
    StartsWith(image, rva + at, Zeros(Gap(at, ThunkWidth(wide))), thunks + (names + text));
    StartsWith(image, rva + lookup, thunks, names + text);
    ThunksLength(rva, namesAt, group.entries, wide);
    assert rva + lookup + |thunks| == rva + namesAt;
    StartsWith(image, rva + namesAt, names, text);
    FunctionsRoundTrip(image, rva + lookup, rva, namesAt, group.entries, MAX_THUNKS, wide);
    AsciiIsProper(group.moduleName);
    TextRoundTrip(image, rva + ModuleAt(at, group, wide), group.moduleName);
  }

  lemma ThunksLength(rva: nat, at: nat, entries: seq<Entry>, wide: bool)
    ensures |ThunksBytes(rva, at, entries, wide) + Zeros(ThunkWidth(wide))| == (|entries| + 1) * ThunkWidth(wide)
  {
  }

  lemma NoMoreModules(image: seq<byte>, at: nat, descriptors: nat, wide: bool)
    requires StartsAt(image, at, Zeros(DESCRIPTOR_SIZE))
    ensures ReadModules(image, at, descriptors, wide) == Some([])
  {
    hide ReadU32, StartsAt, Zeros;
    EmptyDescriptor(image, at);
  }

  lemma EmptyDescriptor(image: seq<byte>, at: nat)
    requires StartsAt(image, at, Zeros(DESCRIPTOR_SIZE))
    ensures ReadU32(image, at) == ReadU32(image, at + NAME_OFFSET) == ReadU32(image, at + IAT_OFFSET) == Some(0)
  {
    var part := image[at..at + DESCRIPTOR_SIZE];
    assert forall i :: 0 <= i < DESCRIPTOR_SIZE ==> image[at + i] == part[i];
  }

  lemma OneMoreModule(image: seq<byte>, at: nat, descriptors: nat, first: Module, lookup: nat, rest: seq<Module>, wide: bool)
    requires ReadU32(image, at) == Some(lookup) && lookup != 0 && descriptors > 0
    requires ReadU32(image, at + IAT_OFFSET) == Some(first.firstThunk)
    requires exists name :: name != 0 && ReadU32(image, at + NAME_OFFSET) == Some(name) && ReadText(image, name) == Some(first.name)
    requires ReadFunctions(image, lookup, MAX_THUNKS, wide) == Some(first.functions)
    requires ReadModules(image, at + DESCRIPTOR_SIZE, descriptors - 1, wide) == Some(rest)
    ensures ReadModules(image, at, descriptors, wide) == Some([first] + rest)
  {
    hide ReadU32, ReadText, ReadFunctions;
  }

  lemma {:induction false} ModulesRoundTrip(
      image: seq<byte>, at: nat, rva: nat, start: nat, groups: seq<Group>, descriptors: nat, wide: bool)
    requires forall g :: g in groups ==> Readable(g)
    requires StartsAt(image, at, Descriptors(rva, start, groups, wide) + Zeros(DESCRIPTOR_SIZE))
    requires StartsAt(image, rva + start, Blobs(rva, start, groups, wide))
    requires |groups| <= descriptors && 0 < start && rva + start + |Blobs(rva, start, groups, wide)| < ORDINAL_FLAG
    ensures ReadModules(image, at, descriptors, wide) == Some(ModulesOf(groups))
    decreases |groups|
  {
    hide ReadU32, ReadText, ReadFunctions, ReadModules, Blob, Descriptor, StartsAt, Readable, FunctionsOf, NamesBytes;
    var end := Zeros(DESCRIPTOR_SIZE);
    if groups == [] {
      assert Descriptors(rva, start, groups, wide) + end == end;
      NoMoreModules(image, at, descriptors, wide);
    } else {
      var g := groups[0];
      assert g in groups;
      var descriptor, blob := Descriptor(rva, start, g, wide), Blob(rva, start, g, wide);
      var next := start + |blob|;
      assert Descriptors(rva, start, groups, wide) + end == descriptor + (Descriptors(rva, next, groups[1..], wide) + end);
      StartsWith(image, at, descriptor, Descriptors(rva, next, groups[1..], wide) + end);
      StartsWith(image, rva + start, blob, Blobs(rva, next, groups[1..], wide));
      PartsInside(rva, start, g, wide);
      DescriptorRoundTrip(image, at, rva, start, g, wide);
      BlobRoundTrip(image, rva, start, g, wide);
      ModulesRoundTrip(image, at + DESCRIPTOR_SIZE, rva, next, groups[1..], descriptors - 1, wide);
      var first := Module(g.moduleName, g.firstThunk, FunctionsOf(g.entries));
      OneMoreModule(image, at, descriptors, first, rva + LookupAt(start, wide), ModulesOf(groups[1..]), wide);
    }
  }

  lemma PartsInside(rva: nat, at: nat, group: Group, wide: bool)
    requires Readable(group)
    ensures group.firstThunk < U32 && LookupAt(at, wide) >= at
    ensures ModuleAt(at, group, wide) < at + |Blob(rva, at, group, wide)| && ModuleAt(at, group, wide) >= at
  {
    hide NamesBytes, ThunksBytes;
  }

  lemma NewModules(image: seq<byte>, existing: seq<byte>, groups: seq<Group>, rva: nat, descriptors: nat, wide: bool)
    requires |groups| <= descriptors && forall g :: g in groups ==> Readable(g)
    requires StartsAt(image, rva, Payload(existing, groups, rva, wide))
    requires rva + |Payload(existing, groups, rva, wide)| < ORDINAL_FLAG
    ensures ReadModules(image, rva + |existing|, descriptors, wide) == Some(ModulesOf(groups))
  {
    hide ReadModules, Descriptors, Blobs, StartsAt, Readable;
    var start := HeaderSize(|existing|, |groups|);
    var table := Descriptors(rva, start, groups, wide) + Zeros(DESCRIPTOR_SIZE);
    StartsWith(image, rva, existing + table, Blobs(rva, start, groups, wide));
    StartsWith(image, rva, existing, table);
    DescriptorsLength(rva, start, groups, wide);
    assert rva + |existing + table| == rva + start;
    ModulesRoundTrip(image, rva + |existing|, rva, start, groups, descriptors, wide);
  }

  // ----- what the reader takes in

  predicate Short(functions: seq<Function>) {
    forall f :: f in functions && f.Name? ==> |f.text| < MAX_NAME_LENGTH
  }

  lemma {:induction false} FunctionsReadAreShort(image: seq<byte>, at: nat, slots: nat, wide: bool)
    requires ReadFunctions(image, at, slots, wide).Some?
    ensures |ReadFunctions(image, at, slots, wide).value| <= slots && Short(ReadFunctions(image, at, slots, wide).value)
    decreases slots
  {
    hide ReadThunk, ReadText;
    if slots > 0 {
      var thunk := ReadThunk(image, at, wide).value;
      if thunk != 0 {
        FunctionsReadAreShort(image, at + ThunkWidth(wide), slots - 1, wide);
        if thunk < Flag(wide) {
          TextsReadAreProper(image, thunk + HINT_SIZE);
        }
      }
    }
  }

  lemma {:induction false} ModulesReadAreShort(image: seq<byte>, at: nat, descriptors: nat, wide: bool)
    requires ReadModules(image, at, descriptors, wide).Some?
    ensures |ReadModules(image, at, descriptors, wide).value| <= descriptors
    ensures forall m :: m in ReadModules(image, at, descriptors, wide).value ==>
      |m.name| < MAX_NAME_LENGTH && |m.functions| <= MAX_THUNKS && Short(m.functions)
    decreases descriptors
  {
    hide ReadU32, ReadText, ReadFunctions, Short;
    var modules := ReadModules(image, at, descriptors, wide).value;
    if descriptors > 0 && modules != [] {
      var lookup, iat := ReadU32(image, at).value, ReadU32(image, at + IAT_OFFSET).value;
      TextsReadAreProper(image, ReadU32(image, at + NAME_OFFSET).value);
      FunctionsReadAreShort(image, if lookup == 0 then iat else lookup, MAX_THUNKS, wide);
      ModulesReadAreShort(image, at + DESCRIPTOR_SIZE, descriptors - 1, wide);
    }
  }

  lemma {:induction false} ModulesAreTheGroups(groups: seq<Group>)
    ensures |ModulesOf(groups)| == |groups|
    ensures forall i :: 0 <= i < |groups| ==>
      ModulesOf(groups)[i] == Module(groups[i].moduleName, groups[i].firstThunk, FunctionsOf(groups[i].entries))
  {
    if groups != [] {
      ModulesAreTheGroups(groups[1..]);
    }
  }

  lemma {:induction false} FunctionsAreTheEntries(entries: seq<Entry>)
    ensures |FunctionsOf(entries)| == |entries|
    ensures forall i :: 0 <= i < |entries| ==> FunctionsOf(entries)[i] == FunctionOf(entries[i])
  {
    if entries != [] {
      FunctionsAreTheEntries(entries[1..]);
    }
  }

  lemma ReadBackIsReadable(group: Group)
    requires Writable(group) && |group.moduleName| < MAX_NAME_LENGTH
    requires |FunctionsOf(group.entries)| <= MAX_THUNKS && Short(FunctionsOf(group.entries))
    ensures Readable(group)
  {
    FunctionsAreTheEntries(group.entries);
    forall e | e in group.entries && e.name.Some?
      ensures |e.name.value| < MAX_NAME_LENGTH
    {
      var i :| 0 <= i < |group.entries| && group.entries[i] == e;
      assert FunctionsOf(group.entries)[i] == Name(e.name.value);
    }
  }

  /**
    * Whatever image holds the payload at its section, the reader lists exactly the plan's groups, in
    * order, if and only if no group, table or name is longer than the reader goes.
    */
  lemma ImportsRoundTripIff(image: seq<byte>, groups: seq<Group>, rva: nat, wide: bool)
    requires forall g :: g in groups ==> Writable(g)
    requires StartsAt(image, rva, Payload([], groups, rva, wide))
    requires rva + |Payload([], groups, rva, wide)| < ORDINAL_FLAG
    ensures ListedImports(image, rva, wide) == Some(ModulesOf(groups))
       <==> |groups| <= MAX_DESCRIPTORS && forall g :: g in groups ==> Readable(g)
  {
    hide ReadModules, Payload, StartsAt, Readable, Writable, Short, FunctionsOf;
    if |groups| <= MAX_DESCRIPTORS && forall g :: g in groups ==> Readable(g) {
      NewModules(image, [], groups, rva, MAX_DESCRIPTORS, wide);
    }
    if ListedImports(image, rva, wide) == Some(ModulesOf(groups)) {
      assert [] + ModulesOf(groups) == ModulesOf(groups);
      ListedAreReadable(image, rva, [], groups, wide);
    }
  }

  lemma ListedAreReadable(image: seq<byte>, rva: nat, kept: seq<Module>, groups: seq<Group>, wide: bool)
    requires forall g :: g in groups ==> Writable(g)
    requires ListedImports(image, rva, wide) == Some(kept + ModulesOf(groups))
    ensures |kept| + |groups| <= MAX_DESCRIPTORS && forall g :: g in groups ==> Readable(g)
  {
    hide ReadModules, Readable, Writable, Short, FunctionsOf;
    ModulesReadAreShort(image, rva, MAX_DESCRIPTORS, wide);
    ModulesAreTheGroups(groups);
    var all := kept + ModulesOf(groups);
    forall i | 0 <= i < |groups|
      ensures Readable(groups[i])
    {
      assert all[|kept| + i] == ModulesOf(groups)[i] && all[|kept| + i] in all;
      ReadBackIsReadable(groups[i]);
    }
  }

  /** Descriptors the image still had are read first, and the new ones after them. */
  lemma {:induction false} KeptModulesFirst(image: seq<byte>, at: nat, kept: nat, more: nat, wide: bool)
    requires ReadModules(image, at, kept, wide).Some? && |ReadModules(image, at, kept, wide).value| == kept
    requires ReadModules(image, at + DESCRIPTOR_SIZE * kept, more, wide).Some?
    ensures ReadModules(image, at, kept + more, wide)
         == Some(ReadModules(image, at, kept, wide).value + ReadModules(image, at + DESCRIPTOR_SIZE * kept, more, wide).value)
    decreases kept
  {
    hide ReadText, ReadFunctions, ReadU32;
    if kept == 0 {
      var added := ReadModules(image, at, more, wide).value;
      assert [] + added == added;
    } else {
      var next := at + DESCRIPTOR_SIZE;
      var listed := ReadModules(image, at, kept, wide).value;
      assert listed[1..] == ReadModules(image, next, kept - 1, wide).value;
      assert next + DESCRIPTOR_SIZE * (kept - 1) == at + DESCRIPTOR_SIZE * kept;
      KeptModulesFirst(image, next, kept - 1, more, wide);
      var added := ReadModules(image, at + DESCRIPTOR_SIZE * kept, more, wide).value;
      assert [listed[0]] + (listed[1..] + added) == listed + added;
    }
  }

  /**
    * With descriptors kept in front, their modules are listed first and the plan's behind them, if and
    * only if all descriptors together, and each table and name, are within the reader's limits.
    */
  lemma WholeTableRoundTripIff(image: seq<byte>, existing: seq<byte>, kept: nat, groups: seq<Group>, rva: nat, wide: bool)
    requires |existing| == DESCRIPTOR_SIZE * kept && forall g :: g in groups ==> Writable(g)
    requires StartsAt(image, rva, Payload(existing, groups, rva, wide))
    requires rva + |Payload(existing, groups, rva, wide)| < ORDINAL_FLAG
    requires ReadModules(image, rva, kept, wide).Some? && |ReadModules(image, rva, kept, wide).value| == kept
    ensures ListedImports(image, rva, wide) == Some(ReadModules(image, rva, kept, wide).value + ModulesOf(groups))
       <==> kept + |groups| <= MAX_DESCRIPTORS && forall g :: g in groups ==> Readable(g)
  {
    hide ReadModules, Payload, StartsAt, Readable, Writable;
    if kept + |groups| <= MAX_DESCRIPTORS && forall g :: g in groups ==> Readable(g) {
      NewModules(image, existing, groups, rva, MAX_DESCRIPTORS - kept, wide);
      KeptModulesFirst(image, rva, kept, MAX_DESCRIPTORS - kept, wide);
    }
    var modules := ReadModules(image, rva, kept, wide).value;
    if ListedImports(image, rva, wide) == Some(modules + ModulesOf(groups)) {
      ListedAreReadable(image, rva, modules, groups, wide);
    }
  }

  lemma DescriptorsLength(rva: nat, start: nat, groups: seq<Group>, wide: bool)
    ensures |Descriptors(rva, start, groups, wide) + Zeros(DESCRIPTOR_SIZE)| == DESCRIPTOR_SIZE * (|groups| + 1)
  {
  }

  // ----- the reader's loops

  lemma FunctionsStep(image: seq<byte>, at: nat, slots: nat, wide: bool)
    requires slots > 0 && ReadThunk(image, at, wide).Some? && ReadThunk(image, at, wide).value != 0
    ensures var first := ReadFunction(image, ReadThunk(image, at, wide).value, wide);
      ReadFunctions(image, at, slots, wide)
      == if first.None? then None else Prepend([first.value], ReadFunctions(image, at + ThunkWidth(wide), slots - 1, wide))
  {
    hide ReadThunk, ReadFunction;
  }

  method ListFunctions(image: seq<byte>, start: nat, wide: bool) returns (r: Option<seq<Function>>)
    ensures r == ReadFunctions(image, start, MAX_THUNKS, wide)
  {
    hide ReadThunk, ReadText;
    var functions: seq<Function> := [];
    var at := start;
    PrependNothing(ReadFunctions(image, start, MAX_THUNKS, wide));
    for slot := 0 to MAX_THUNKS
      invariant at == start + slot * ThunkWidth(wide)
      invariant ReadFunctions(image, start, MAX_THUNKS, wide)
             == Prepend(functions, ReadFunctions(image, at, MAX_THUNKS - slot, wide))
    {
      var thunk := ReadThunk(image, at, wide);
      if thunk.None? {
        return None;
      }
      if thunk.value == 0 {
        assert functions + [] == functions;
        return Some(functions);
      }
      FunctionsStep(image, at, MAX_THUNKS - slot, wide);
      var found := Function.Ordinal(thunk.value % 0x1_0000);
      if thunk.value < Flag(wide) {
        var text := ReadText(image, thunk.value + HINT_SIZE);
        if text.None? {
          return None;
        }
        found := Function.Name(text.value);
      }
      var next := at + ThunkWidth(wide);
      PrependTwice(functions, [found], ReadFunctions(image, next, MAX_THUNKS - slot - 1, wide));
      functions, at := functions + [found], next;
    }
    assert functions + [] == functions;
    return Some(functions);
  }

  lemma ModulesStep(image: seq<byte>, at: nat, descriptors: nat, wide: bool, lookup: nat, name: nat, iat: nat)
    requires descriptors > 0 && !(name == 0 && iat == 0)
    requires ReadU32(image, at) == Some(lookup) && ReadU32(image, at + NAME_OFFSET) == Some(name)
    requires ReadU32(image, at + IAT_OFFSET) == Some(iat)
    ensures var text, functions := ReadText(image, name), ReadFunctions(image, if lookup == 0 then iat else lookup, MAX_THUNKS, wide);
      ReadModules(image, at, descriptors, wide)
      == if text.None? || functions.None? then None
         else Prepend([Module(text.value, iat, functions.value)], ReadModules(image, at + DESCRIPTOR_SIZE, descriptors - 1, wide))
  {
    hide ReadText, ReadFunctions, ReadU32;
  }

  method ListImports(image: seq<byte>, start: nat, wide: bool) returns (r: Option<seq<Module>>)
    ensures r == ListedImports(image, start, wide)
  {
    hide ReadText, ReadFunctions, U32At;
    var modules: seq<Module> := [];
    var at := start;
    PrependNothing(ReadModules(image, start, MAX_DESCRIPTORS, wide));
    for index := 0 to MAX_DESCRIPTORS
      invariant at == start + DESCRIPTOR_SIZE * index
      invariant ReadModules(image, start, MAX_DESCRIPTORS, wide)
             == Prepend(modules, ReadModules(image, at, MAX_DESCRIPTORS - index, wide))
    {
      var lookup, name, iat := ReadU32(image, at), ReadU32(image, at + NAME_OFFSET), ReadU32(image, at + IAT_OFFSET);
      if lookup.None? || name.None? || iat.None? {
        return None;
      }
      if name.value == 0 && iat.value == 0 {
        assert modules + [] == modules;
        return Some(modules);
      }
      ModulesStep(image, at, MAX_DESCRIPTORS - index, wide, lookup.value, name.value, iat.value);
      var text := ReadText(image, name.value);
      if text.None? {
        return None;
      }
      var functions := ListFunctions(image, if lookup.value == 0 then iat.value else lookup.value, wide);
      if functions.None? {
        return None;
      }
      var found := Module(text.value, iat.value, functions.value);
      PrependTwice(modules, [found], ReadModules(image, at + DESCRIPTOR_SIZE, MAX_DESCRIPTORS - index - 1, wide));
      modules, at := modules + [found], at + DESCRIPTOR_SIZE;
    }
    assert modules + [] == modules;
    return Some(modules);
  }
}
