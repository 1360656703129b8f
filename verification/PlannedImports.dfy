/**
  * From the plan to the section and back: whatever was scanned, the groups the plan holds are within
  * the limits of the reader of import tables, so the section that is built from them reads back whole.
  */
module PlannedImports {
  import opened Wrappers
  import opened Buffers
  import opened Bytes
  import opened Texts
  import Plan = ImportPlan
  import opened Imports

  // ----- a plan's groups, as the section has them

  function SectionEntry(entry: Plan.Entry): Entry {
    Entry(entry.name, entry.ordinal)
  }

  function SectionEntries(entries: seq<Plan.Entry>): (r: seq<Entry>)
    ensures |r| == |entries| && forall i :: 0 <= i < |r| ==> r[i] == SectionEntry(entries[i])
  {
    if entries == [] then [] else [SectionEntry(entries[0])] + SectionEntries(entries[1..])
  }

  function SectionGroup(group: Plan.Group): Group {
    Group(group.moduleName, group.firstThunk, SectionEntries(group.entries))
  }

  function SectionGroups(groups: seq<Plan.Group>): (r: seq<Group>)
    ensures |r| == |groups| && forall i :: 0 <= i < |r| ==> r[i] == SectionGroup(groups[i])
  {
    if groups == [] then [] else [SectionGroup(groups[0])] + SectionGroups(groups[1..])
  }

  // ----- what names can be read from exports

  predicate Named(text: Text) {
    text != [] && |text| < MAX_NAME_LENGTH && forall i :: 0 <= i < |text| ==> text[i] != 0
  }

  /** Names come from tables in memory, where they are not empty and end within 4096 bytes. */
  ghost predicate NamesAreRead(world: Plan.World) {
    forall value: nat :: world.resolve(value).Resolved? ==>
      var symbol := world.resolve(value).symbol;
      Named(symbol.moduleName) && (symbol.name.Some? ==> Named(symbol.name.value))
  }

  lemma SameLettersNamed(a: Text, b: Text)
    requires Plan.SameLetters(a, b) && Named(b) && Plan.AllAscii(b)
    ensures Ascii(a) && |a| < MAX_NAME_LENGTH
  {
    forall i | 0 <= i < |a|
      ensures 0 < a[i] < 128
    {
      assert Plan.Lower(a[i]) == Plan.Lower(b[i]) && b[i] != 0;
    }
  }

  lemma EntryIsReadable(world: Plan.World, group: Plan.Group, i: nat)
    requires NamesAreRead(world) && i < |group.entries| && Plan.Rests(world, group, i)
    ensures Ascii(group.moduleName) && |group.moduleName| < MAX_NAME_LENGTH
    ensures var entry := group.entries[i];
      if entry.name.Some? then Ascii(entry.name.value) && |entry.name.value| < MAX_NAME_LENGTH else entry.ordinal < 0x1_0000
    ensures group.firstThunk < U32
  {
    hide Plan.ReadPointer;
    var slot := group.firstThunk + Plan.Span(world.wide, i);
    var symbol := world.resolve(Plan.ReadPointer(world.memory, slot, world.wide).value).symbol;
    SameLettersNamed(group.moduleName, symbol.moduleName);
  }

  lemma GroupIsReadable(world: Plan.World, group: Plan.Group)
    requires NamesAreRead(world) && Plan.Sound(world, group) && |group.entries| <= MAX_THUNKS
    ensures Readable(SectionGroup(group))
    ensures forall e :: e in group.entries && e.name.None? ==> e.ordinal < 0x1_0000
  {
    hide NamesAreRead, Ascii, Plan.Rests;
    EntryIsReadable(world, group, 0);
    forall i | 0 <= i < |group.entries|
      ensures var entry := group.entries[i];
        if entry.name.Some? then Ascii(entry.name.value) && |entry.name.value| < MAX_NAME_LENGTH else entry.ordinal < 0x1_0000
    {
      EntryIsReadable(world, group, i);
    }
  }

  lemma {:induction false} OneOfTotal(groups: seq<Plan.Group>, i: nat)
    requires i < |groups|
    ensures |groups[i].entries| <= Plan.Total(groups)
    decreases |groups|
  {
    if i < |groups| - 1 {
      OneOfTotal(groups[..|groups| - 1], i);
    }
  }

  /** The plan's own limits are never above the reader's. */
  lemma PlansAreReadable(world: Plan.World, groups: seq<Plan.Group>)
    requires NamesAreRead(world) && Plan.Bounded(groups) && Plan.AllSound(world, groups)
    ensures |SectionGroups(groups)| <= MAX_DESCRIPTORS && forall g :: g in SectionGroups(groups) ==> Readable(g)
    ensures forall g :: g in groups ==> forall e :: e in g.entries && e.name.None? ==> e.ordinal < 0x1_0000
  {
    hide NamesAreRead, Readable, Plan.Sound;
    forall i | 0 <= i < |groups|
      ensures Readable(SectionGroup(groups[i]))
      ensures forall e :: e in groups[i].entries && e.name.None? ==> e.ordinal < 0x1_0000
    {
      assert groups[i] in groups;
      OneOfTotal(groups, i);
      GroupIsReadable(world, groups[i]);
    }
  }

  // ----- what is read back

  /** A module with the group's name and place, and at each thunk the entry's name or its whole ordinal. */
  predicate Tells(m: Module, group: Plan.Group) {
    && m.name == group.moduleName && m.firstThunk == group.firstThunk && |m.functions| == |group.entries|
    && forall i :: 0 <= i < |m.functions| ==>
         m.functions[i] == (if group.entries[i].name.Some? then Name(group.entries[i].name.value) else Ordinal(group.entries[i].ordinal))
  }

  lemma GroupIsTold(group: Plan.Group)
    requires forall e :: e in group.entries && e.name.None? ==> e.ordinal < 0x1_0000
    ensures var g := SectionGroup(group); Tells(Module(g.moduleName, g.firstThunk, FunctionsOf(g.entries)), group)
  {
    var entries := SectionEntries(group.entries);
    FunctionsAreTheEntries(entries);
    forall i | 0 <= i < |entries|
      ensures FunctionsOf(entries)[i]
           == (if group.entries[i].name.Some? then Name(group.entries[i].name.value) else Ordinal(group.entries[i].ordinal))
    {
      assert group.entries[i] in group.entries && entries[i] == SectionEntry(group.entries[i]);
    }
  }

  /**
    * Scan and recover in any order, build the section, and read it: the reader lists one module for
    * each group of the plan, in order, with its names, its whole ordinals and its place.
    */
  lemma AnyPlanReadsBack(world: Plan.World, steps: seq<Plan.Step>, image: seq<byte>, rva: nat)
    requires NamesAreRead(world) && Plan.Ascending(world.calls) && forall c :: c in world.calls ==> c.slot < U32
    requires var payload := Payload([], SectionGroups(Plan.After(world, Plan.Plan([], {}, 0, 0), steps).groups), rva, world.wide);
      StartsAt(image, rva, payload) && rva + |payload| < ORDINAL_FLAG
    ensures var groups := Plan.After(world, Plan.Plan([], {}, 0, 0), steps).groups;
      var listed := ListedImports(image, rva, world.wide);
      listed.Some? && |listed.value| == |groups| && forall i :: 0 <= i < |groups| ==> Tells(listed.value[i], groups[i])
  {
    hide Plan.After, Plan.AllSound, Payload, StartsAt, Readable, NamesAreRead, ListedImports, Tells, ModulesOf;
    var groups := Plan.After(world, Plan.Plan([], {}, 0, 0), steps).groups;
    var section := SectionGroups(groups);
    NothingIsSound(world);
    Plan.AnyScansKeep(world, Plan.Plan([], {}, 0, 0), steps);
    PlansAreReadable(world, groups);
    ReadableIsWritable(section);
    ImportsRoundTripIff(image, section, rva, world.wide);
    ModulesAreTheGroups(section);
    forall i | 0 <= i < |groups|
      ensures Tells(ModulesOf(section)[i], groups[i])
    {
      assert groups[i] in groups;
      GroupIsTold(groups[i]);
    }
  }

  lemma NothingIsSound(world: Plan.World)
    ensures Plan.Bounded([]) && Plan.AllSound(world, [])
  {
  }

  lemma ReadableIsWritable(groups: seq<Group>)
    requires forall g :: g in groups ==> Readable(g)
    ensures forall g :: g in groups ==> Writable(g)
  {
    hide Writable;
  }

  // ----- a table with too many descriptors

  function KeptDescriptor(lookup: nat, name: nat): (r: seq<byte>)
    ensures |r| == DESCRIPTOR_SIZE
  {
    U32Bytes(lookup) + Zeros(8) + U32Bytes(name) + U32Bytes(lookup)
  }

  function Repeated(part: seq<byte>, count: nat): (r: seq<byte>)
    ensures |r| == |part| * count
  {
    if count == 0 then [] else part + Repeated(part, count - 1)
  }

  /** What a kept descriptor leads to: a module's name, and a table with one ordinal. */
  function KeptData(): (r: seq<byte>)
    ensures |r| == 10
  {
    [75, 0] + (U32Bytes(ORDINAL_FLAG + 1) + U32Bytes(0))
  }

  lemma KeptDescriptorReads(image: seq<byte>, at: nat, lookup: nat, name: nat)
    requires StartsAt(image, at, KeptDescriptor(lookup, name)) && lookup < U32 && name < U32
    ensures ReadU32(image, at) == Some(lookup) && ReadU32(image, at + NAME_OFFSET) == Some(name)
    ensures ReadU32(image, at + IAT_OFFSET) == Some(lookup)
  {
    hide U32Bytes, U32At, StartsAt;
    var l, n := U32Bytes(lookup), U32Bytes(name);
    StartsWith(image, at, l + Zeros(8) + n, l);
    StartsWith(image, at, l + Zeros(8), n);
    StartsWith(image, at, l, Zeros(8));
    U32Reads(image, at, lookup);
    U32Reads(image, at + NAME_OFFSET, name);
    U32Reads(image, at + IAT_OFFSET, lookup);
  }

  lemma KeptDataReads(image: seq<byte>, at: nat)
    requires StartsAt(image, at, KeptData())
    ensures ReadText(image, at) == Some([75]) && ReadFunctions(image, at + 2, MAX_THUNKS, false) == Some([Ordinal(1)])
  {
    hide U32Bytes, U32At, StartsAt, ReadText, ReadFunctions;
    var thunk, end := U32Bytes(ORDINAL_FLAG + 1), U32Bytes(0);
    StartsWith(image, at, [75, 0], thunk + end);
    StartsWith(image, at + 2, thunk, end);
    U32Reads(image, at + 2, ORDINAL_FLAG + 1);
    U32Reads(image, at + 6, 0);
    assert [75] + [0] == [75, 0];
    AsciiIsProper([75]);
    TextRoundTrip(image, at, [75]);
    OneFunction(image, at + 2);
  }

  lemma OneFunction(image: seq<byte>, at: nat)
    requires ReadU32(image, at) == Some(ORDINAL_FLAG + 1) && ReadU32(image, at + 4) == Some(0)
    ensures ReadFunctions(image, at, MAX_THUNKS, false) == Some([Ordinal(1)])
  {
    hide ReadU32;
    assert ReadFunctions(image, at + 4, MAX_THUNKS - 1, false) == Some([]);
    assert ReadFunction(image, ORDINAL_FLAG + 1, false) == Some(Ordinal(1));
    assert [Ordinal(1)] + [] == [Ordinal(1)];
  }

  lemma {:induction false} KeptDescriptorsRead(image: seq<byte>, at: nat, data: nat, count: nat)
    requires StartsAt(image, at, Repeated(KeptDescriptor(data + 2, data), count)) && 0 < data && data + 2 < U32
    requires StartsAt(image, data, KeptData())
    ensures ReadModules(image, at, count, false).Some? && |ReadModules(image, at, count, false).value| == count
    decreases count
  {
    hide ReadU32, ReadText, ReadFunctions, StartsAt, KeptData, KeptDescriptor;
    if count > 0 {
      var descriptor := KeptDescriptor(data + 2, data);
      StartsWith(image, at, descriptor, Repeated(descriptor, count - 1));
      KeptDescriptorReads(image, at, data + 2, data);
      KeptDataReads(image, data);
      KeptDescriptorsRead(image, at + DESCRIPTOR_SIZE, data, count - 1);
    }
  }

  /**
    * With as many kept descriptors as the reader goes, the groups behind them are in the payload, but
    * not one of them is listed.
    */
  lemma CrowdedTableLosesGroups(groups: seq<Group>, rva: nat) returns (image: seq<byte>, existing: seq<byte>)
    requires groups != [] && forall g :: g in groups ==> Readable(g)
    requires rva + |Payload(Zeros(DESCRIPTOR_SIZE * MAX_DESCRIPTORS), groups, rva, false)| + 10 < ORDINAL_FLAG
    ensures |existing| == DESCRIPTOR_SIZE * MAX_DESCRIPTORS
    ensures StartsAt(image, rva, Payload(existing, groups, rva, false)) && rva + |Payload(existing, groups, rva, false)| < ORDINAL_FLAG
    ensures var kept := ReadModules(image, rva, MAX_DESCRIPTORS, false);
      && kept.Some? && |kept.value| == MAX_DESCRIPTORS && ListedImports(image, rva, false) == kept
      && kept.value != kept.value + ModulesOf(groups)
  {
    hide ReadModules, KeptDescriptor, KeptData, StartsAt;
    var empty := Zeros(DESCRIPTOR_SIZE * MAX_DESCRIPTORS);
    var data := rva + |Payload(empty, groups, rva, false)|;
    var descriptor := KeptDescriptor(data + 2, data);
    existing := Repeated(descriptor, MAX_DESCRIPTORS);
    SameSize(empty, existing, groups, rva);
    PayloadIsLong(existing, groups, rva);
    var payload := Payload(existing, groups, rva, false);
    image := Zeros(rva) + payload + KeptData();
    Stands(Zeros(rva), payload, KeptData());
    PayloadHasKept(image, existing, groups, rva);
    KeptDescriptorsRead(image, rva, data, MAX_DESCRIPTORS);
    ModulesAreTheGroups(groups);
  }

  lemma SameSize(a: seq<byte>, b: seq<byte>, groups: seq<Group>, rva: nat)
    requires |a| == |b|
    ensures |Payload(a, groups, rva, false)| == |Payload(b, groups, rva, false)|
  {
    hide Descriptors, Blobs;
  }

  lemma PayloadIsLong(existing: seq<byte>, groups: seq<Group>, rva: nat)
    requires existing != []
    ensures |Payload(existing, groups, rva, false)| > 0
  {
    hide Descriptors, Blobs;
  }

  lemma PayloadHasKept(image: seq<byte>, existing: seq<byte>, groups: seq<Group>, rva: nat)
    requires StartsAt(image, rva, Payload(existing, groups, rva, false))
    ensures StartsAt(image, rva, existing)
  {
    hide Descriptors, Blobs, StartsAt;
    var start := HeaderSize(|existing|, |groups|);
    var table := Descriptors(rva, start, groups, false) + Zeros(DESCRIPTOR_SIZE);
    StartsWith(image, rva, existing + table, Blobs(rva, start, groups, false));
    StartsWith(image, rva, existing, table);
  }

  lemma Stands(before: seq<byte>, part: seq<byte>, after: seq<byte>)
    ensures StartsAt(before + part + after, |before|, part) && StartsAt(before + part + after, |before| + |part|, after)
  {
    var all := before + part + after;
    assert all[|before|..|before| + |part|] == part;
    assert all[|before| + |part|..|before| + |part| + |after|] == after;
  }
}
