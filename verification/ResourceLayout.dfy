/** The laid-out block says what its source said: entry by entry, then as a tree. */
module ResourceLayout {
  import opened Wrappers
  import opened Bytes
  import opened Resources

  // ----- tables found breadth first

  ghost predicate Distinct<T(!new)>(s: seq<T>) {
    forall i, j :: 0 <= i < j < |s| ==> s[i] != s[j]
  }

  /** Every table from `next` on is readable, and its children are among the tables. */
  ghost predicate Closed(src: Block, tables: seq<nat>, next: nat) {
    forall i :: next <= i < |tables| ==>
      Entries(src, tables[i]).Some? && forall c :: c in Children(Entries(src, tables[i]).value) ==> c in tables
  }

  lemma {:induction false} ChildrenAreNew(src: Block, found: seq<nat>, children: seq<nat>)
    requires WithChildren(src, found, children).Some? && Distinct(found)
    ensures Distinct(found + children)
    ensures forall c :: c in children ==> Entries(src, c).Some?
    ensures children != [] ==> Total(src, found + children) <= MAX_ENTRIES
    decreases |children|
  {
    hide Entries, Total;
    if children == [] {
      assert found + children == found;
    } else {
      ChildrenAreNew(src, found + [children[0]], children[1..]);
      assert found + children == found + [children[0]] + children[1..];
      assert children[1..] == [] ==> found + children == found + [children[0]];
      assert children == [children[0]] + children[1..];
    }
  }

  lemma {:induction false} TablesAreClosed(src: Block, found: seq<nat>, next: nat)
    requires next <= |found| && Tables(src, found, next).Some? && Distinct(found)
    ensures found <= Tables(src, found, next).value
    ensures Distinct(Tables(src, found, next).value) && Closed(src, Tables(src, found, next).value, next)
    decreases Unseen(found), |found| - next
  {
    hide Entries, WithChildren, Children;
    if next < |found| {
      var children := Children(Entries(src, found[next]).value);
      var more := found + children;
      WithChildrenAdds(src, found, children);
      ChildrenAreNew(src, found, children);
      FewerUnseen(src, found, next);
      TablesAreClosed(src, more, next + 1);
      var all := Tables(src, found, next).value;
      assert all == Tables(src, more, next + 1).value;
      assert all[next] == found[next];
      forall c | c in children
        ensures c in all
      {
        var k :| 0 <= k < |children| && children[k] == c;
        assert all[|found| + k] == more[|found| + k] == c;
      }
    }
  }

  lemma WithChildrenAdds(src: Block, found: seq<nat>, children: seq<nat>)
    requires WithChildren(src, found, children).Some?
    ensures WithChildren(src, found, children) == Some(found + children)
  {
  }

  lemma FewerUnseen(src: Block, found: seq<nat>, next: nat)
    requires next < |found| && Entries(src, found[next]).Some?
    requires WithChildren(src, found, Children(Entries(src, found[next]).value)).Some?
    ensures var children := Children(Entries(src, found[next]).value);
      children == [] || Unseen(found + children) < Unseen(found)
    ensures Children(Entries(src, found[next]).value) == [] ==>
      found + Children(Entries(src, found[next]).value) == found
  {
    hide Entries;
    UnseenShrinks(found, Children(Entries(src, found[next]).value));
  }

  // ----- what the block holds, and where

  lemma TableFits(src: Block, plan: Plan, table: nat)
    requires Entries(src, table).Some?
    ensures ReadRecord(src, table).Some?
    ensures |TableBytes(src, plan, table)| == TABLE_SIZE + ENTRY_SIZE * EntryCount(src, table)
  {
    hide ReadEntries, NewEntries, EntriesBytes;
    NewEntriesSize(src, plan, Entries(src, table).value);
  }

  lemma NewEntriesSize(src: Block, plan: Plan, entries: seq<Entry>)
    ensures |EntriesBytes(NewEntries(src, plan, entries))| == ENTRY_SIZE * |entries|
  {
  }

  lemma {:induction false} TablesFit(src: Block, plan: Plan, count: nat)
    requires count <= |plan.tables| && forall t :: t in plan.tables ==> Entries(src, t).Some?
    ensures |TablesBytes(src, plan, count)| == TablesSize(src, plan.tables[..count])
  {
    hide Entries, TableBytes, EntryCount;
    if count > 0 {
      var last := plan.tables[count - 1];
      assert plan.tables[..count][..count - 1] == plan.tables[..count - 1];
      TablesFit(src, plan, count - 1);
      TableFits(src, plan, last);
    }
  }

  lemma {:induction false} TableStands(src: Block, plan: Plan, index: nat, count: nat)
    requires index < count <= |plan.tables| && forall t :: t in plan.tables ==> Entries(src, t).Some?
    ensures StartsAt(TablesBytes(src, plan, count), TablesSize(src, plan.tables[..index]), TableBytes(src, plan, plan.tables[index]))
  {
    hide Entries, TableBytes, TablesSize;
    var last := TableBytes(src, plan, plan.tables[count - 1]);
    if index == count - 1 {
      TablesFit(src, plan, index);
      StandsLast(TablesBytes(src, plan, count - 1), last);
    } else {
      TableStands(src, plan, index, count - 1);
      StandsInFront(TablesBytes(src, plan, count - 1), TablesSize(src, plan.tables[..index]),
                    TableBytes(src, plan, plan.tables[index]), last);
    }
  }

  lemma StandsLast(before: seq<byte>, part: seq<byte>)
    ensures StartsAt(before + part, |before|, part)
  {
  }

  lemma StandsInFront(before: seq<byte>, at: nat, part: seq<byte>, after: seq<byte>)
    requires StartsAt(before, at, part)
    ensures StartsAt(before + after, at, part)
  {
    assert (before + after)[at..at + |part|] == before[at..at + |part|];
  }

  lemma StandsBehind(before: seq<byte>, after: seq<byte>, at: nat, part: seq<byte>)
    requires StartsAt(after, at, part)
    ensures StartsAt(before + after, |before| + at, part)
  {
    assert (before + after)[|before| + at..|before| + at + |part|] == after[at..at + |part|];
  }

  lemma {:induction false} SlotStands(src: Block, leaves: seq<nat>, index: nat, count: nat)
    requires index < count <= |leaves|
    ensures StartsAt(SlotsBytes(src, leaves, count), RECORD_SIZE * index, SlotBytes(src, leaves, index))
  {
    hide SlotBytes;
    var before := SlotsBytes(src, leaves, count - 1);
    if index == count - 1 {
      StandsLast(before, SlotBytes(src, leaves, index));
    } else {
      SlotStands(src, leaves, index, count - 1);
      StandsInFront(before, RECORD_SIZE * index, SlotBytes(src, leaves, index), SlotBytes(src, leaves, count - 1));
    }
  }

  lemma {:induction false} PartStands(parts: seq<seq<byte>>, index: nat)
    requires index < |parts|
    ensures StartsAt(Concat(parts), |Concat(parts[..index])|, parts[index])
  {
    var front := parts[..|parts| - 1];
    if index == |parts| - 1 {
      StandsLast(Concat(front), parts[index]);
    } else {
      PartStands(front, index);
      assert front[..index] == parts[..index];
      StandsInFront(Concat(front), |Concat(parts[..index])|, parts[index], parts[|parts| - 1]);
    }
  }

  // ----- reading the parts back

  lemma {:induction false} EntriesRoundTrip(bytes: seq<byte>, at: nat, entries: seq<Entry>)
    requires StartsAt(bytes, at, EntriesBytes(entries))
    requires forall e :: e in entries ==> e.name < U32 && e.target < U32
    ensures ReadEntries(bytes, at, |entries|) == Some(entries)
    decreases |entries|
  {
    hide U32Bytes, U32At, StartsAt;
    if entries != [] {
      var e := entries[0];
      assert e in entries;
      var name, target, rest := U32Bytes(e.name), U32Bytes(e.target), EntriesBytes(entries[1..]);
      assert EntriesBytes(entries) == name + (target + rest);
      StartsWith(bytes, at, name, target + rest);
      StartsWith(bytes, at + 4, target, rest);
      U32Reads(bytes, at, e.name);
      U32Reads(bytes, at + 4, e.target);
      EntriesRoundTrip(bytes, at + ENTRY_SIZE, entries[1..]);
      assert [Entry(e.name, e.target)] + entries[1..] == entries;
    }
  }

  lemma U32Reads(bytes: seq<byte>, at: nat, value: nat)
    requires value < U32 && StartsAt(bytes, at, U32Bytes(value))
    ensures ReadU32(bytes, at) == Some(value)
  {
    U32RoundTrip(bytes, at, value);
  }

  /** Fields inside a copied part read as they did. */
  lemma SameFields(a: seq<byte>, at: nat, b: seq<byte>, to: nat, size: nat, offset: nat)
    requires at + size <= |a| && StartsAt(b, to, a[at..at + size]) && offset + 2 <= size
    ensures ReadU16(b, to + offset) == ReadU16(a, at + offset) && ReadU16(a, at + offset).Some?
  {
    var part := a[at..at + size];
    assert b[to..to + size] == part;
    assert b[to + offset] == part[offset] == a[at + offset];
    assert b[to + offset + 1] == part[offset + 1] == a[at + offset + 1];
  }

  lemma TableRoundTrip(src: Block, plan: Plan, table: nat, block: seq<byte>, at: nat)
    requires Entries(src, table).Some? && StartsAt(block, at, TableBytes(src, plan, table))
    requires forall e :: e in NewEntries(src, plan, Entries(src, table).value) ==> e.name < U32 && e.target < U32
    ensures Entries(Block(block, 0), at) == Some(NewEntries(src, plan, Entries(src, table).value))
    ensures ReadRecord(Block(block, 0), at) == ReadRecord(src, table) && ReadRecord(src, table).Some?
  {
    hide ReadEntries, NewEntries, EntriesBytes, NewEntry, U16At;
    TableFits(src, plan, table);
    var from := src.start + table;
    var header := src.bytes[from..from + TABLE_SIZE];
    var entries := NewEntries(src, plan, Entries(src, table).value);
    SameLength(src, plan, Entries(src, table).value);
    StartsWith(block, at, header, EntriesBytes(entries));
    SameFields(src.bytes, from, block, at, TABLE_SIZE, NAMED_COUNT_OFFSET);
    SameFields(src.bytes, from, block, at, TABLE_SIZE, ID_COUNT_OFFSET);
    EntriesRoundTrip(block, at + TABLE_SIZE, entries);
    CountOf(src, table);
  }

  lemma SameLength(src: Block, plan: Plan, entries: seq<Entry>)
    ensures |NewEntries(src, plan, entries)| == |entries|
  {
  }

  lemma CountOf(src: Block, table: nat)
    requires Entries(src, table).Some?
    ensures var from := src.start + table;
      ReadU16(src.bytes, from + NAMED_COUNT_OFFSET).Some? && ReadU16(src.bytes, from + ID_COUNT_OFFSET).Some?
      && |Entries(src, table).value| == ReadU16(src.bytes, from + NAMED_COUNT_OFFSET).value
         + ReadU16(src.bytes, from + ID_COUNT_OFFSET).value
  {
    hide U16At;
  }

  /** A counted text carries its own length. */
  ghost predicate Counted(text: seq<byte>) {
    |text| >= 2 && |text| == 2 + 2 * U16At(text, 0)
  }

  lemma TextsAreCounted(src: Block, name: nat)
    requires ReadString(src, name).Some?
    ensures Counted(ReadString(src, name).value)
  {
    var at := src.start + Unmarked(name);
    var text := ReadString(src, name).value;
    assert text[0] == src.bytes[at] && text[1] == src.bytes[at + 1];
  }

  lemma TextRoundTrip(block: seq<byte>, at: nat, text: seq<byte>)
    requires Counted(text) && StartsAt(block, at, text) && at < FLAG
    ensures ReadString(Block(block, 0), Mark(at)) == Some(text)
  {
    assert block[at..at + |text|] == text;
    assert block[at] == text[0] && block[at + 1] == text[1];
  }

  lemma {:induction false} StringsAreCounted(src: Block, names: seq<nat>)
    requires Strings(src, names).Some?
    ensures forall text :: text in Strings(src, names).value ==> Counted(text)
    ensures forall name :: name in names ==> ReadString(src, name).Some? && ReadString(src, name).value in Strings(src, names).value
    ensures forall text :: text in Strings(src, names).value ==> exists name :: name in names && ReadString(src, name) == Some(text)
    ensures Distinct(Strings(src, names).value)
  {
    hide ReadString, Counted;
    if names != [] {
      var front, last := names[..|names| - 1], names[|names| - 1];
      StringsAreCounted(src, front);
      TextsAreCounted(src, last);
      assert names == front + [last];
      assert forall name :: name in front ==> name in names;
    }
  }

  // ----- the block mirrors its source

  /** Every table, record and text of the source stands at its new place. */
  ghost predicate Mirrors(src: Block, plan: Plan, block: Block) {
    && (forall table :: table in plan.tables ==>
          && Entries(src, table).Some? && ReadRecord(src, table).Some? && TableAt(src, plan, table) < FLAG
          && Entries(block, TableAt(src, plan, table)) == Some(NewEntries(src, plan, Entries(src, table).value))
          && ReadRecord(block, TableAt(src, plan, table)) == ReadRecord(src, table))
    && (forall leaf :: leaf in plan.leaves ==>
          && ReadRecord(src, leaf).Some? && LeafAt(src, plan, leaf) < FLAG
          && ReadRecord(block, LeafAt(src, plan, leaf)) == ReadRecord(src, leaf))
    && (forall text :: text in plan.strings ==> ReadString(block, Mark(StringAt(src, plan, text))) == Some(text))
  }

  lemma {:induction false} TablesSizeGrows(src: Block, tables: seq<nat>, index: nat)
    requires index <= |tables|
    ensures TablesSize(src, tables[..index]) + TABLE_SIZE * (|tables| - index) <= TablesSize(src, tables)
    decreases |tables|
  {
    hide EntryCount;
    if index < |tables| {
      assert tables[..|tables| - 1][..index] == tables[..index];
      TablesSizeGrows(src, tables[..|tables| - 1], index);
    } else {
      assert tables[..index] == tables;
    }
  }

  lemma {:induction false} ConcatGrows(parts: seq<seq<byte>>, index: nat)
    requires index <= |parts|
    ensures |Concat(parts[..index])| <= |Concat(parts)|
    ensures index < |parts| ==> |Concat(parts[..index])| + |parts[index]| <= |Concat(parts)|
    decreases |parts|
  {
    if index == |parts| {
      assert parts[..index] == parts;
    } else if index < |parts| - 1 {
      assert parts[..|parts| - 1][..index] == parts[..index];
      ConcatGrows(parts[..|parts| - 1], index);
    }
  }

  lemma LayoutSize(src: Block, plan: Plan)
    requires forall t :: t in plan.tables ==> Entries(src, t).Some?
    ensures |LayoutBytes(src, plan)| == StringsStart(src, plan) + |Concat(plan.strings)|
    ensures |TablesBytes(src, plan, |plan.tables|)| == TablesSize(src, plan.tables)
  {
    TablesFit(src, plan, |plan.tables|);
    assert plan.tables[..|plan.tables|] == plan.tables;
  }

  /** Every place handed out lies inside the block. */
  lemma PlacesInside(src: Block, plan: Plan, table: nat, leaf: nat, text: seq<byte>)
    requires forall t :: t in plan.tables ==> Entries(src, t).Some?
    ensures var size := |LayoutBytes(src, plan)|;
      && TableAt(src, plan, table) <= size && LeafAt(src, plan, leaf) <= size && StringAt(src, plan, text) <= size
      && (table in plan.tables ==> TableAt(src, plan, table) + TABLE_SIZE <= size)
      && (leaf in plan.leaves ==> LeafAt(src, plan, leaf) + RECORD_SIZE <= size)
      && (text in plan.strings ==> StringAt(src, plan, text) + |text| <= size)
  {
    hide TablesSize, Concat, LayoutBytes;
    LayoutSize(src, plan);
    TablesSizeGrows(src, plan.tables, First(plan.tables, table));
    ConcatGrows(plan.strings, First(plan.strings, text));
  }

  lemma NewEntriesFit(src: Block, plan: Plan, entries: seq<Entry>)
    requires forall t :: t in plan.tables ==> Entries(src, t).Some?
    requires |LayoutBytes(src, plan)| <= FLAG && forall e :: e in entries ==> e.name < U32 && e.target < U32
    ensures forall e :: e in NewEntries(src, plan, entries) ==> e.name < U32 && e.target < U32
  {
    hide LayoutBytes, TableAt, LeafAt, StringAt, ReadString, NewEntries, Entries;
    forall e | e in NewEntries(src, plan, entries)
      ensures e.name < U32 && e.target < U32
    {
      NewEntriesAre(src, plan, entries);
      var i :| 0 <= i < |entries| && e == NewEntry(src, plan, entries[i]);
      var text := if ReadString(src, entries[i].name).Some? then ReadString(src, entries[i].name).value else [];
      PlacesInside(src, plan, Unmarked(entries[i].target), entries[i].target, text);
    }
  }

  lemma NewEntriesAre(src: Block, plan: Plan, entries: seq<Entry>)
    ensures |NewEntries(src, plan, entries)| == |entries|
    ensures forall i :: 0 <= i < |entries| ==> NewEntries(src, plan, entries)[i] == NewEntry(src, plan, entries[i])
  {
  }

  lemma TableMirrored(src: Block, plan: Plan, table: nat)
    requires table in plan.tables && forall t :: t in plan.tables ==> Entries(src, t).Some?
    requires |LayoutBytes(src, plan)| <= FLAG
    ensures var block := Block(LayoutBytes(src, plan), 0);
      && ReadRecord(src, table).Some? && ReadRecord(block, TableAt(src, plan, table)) == ReadRecord(src, table)
      && Entries(block, TableAt(src, plan, table)) == Some(NewEntries(src, plan, Entries(src, table).value))
  {
    hide TablesBytes, SlotsBytes, Concat, TableBytes, ReadRecord, Entries, NewEntries, StartsAt, TablesSize;
    var i := First(plan.tables, table);
    var at := TableAt(src, plan, table);
    var tables := TablesBytes(src, plan, |plan.tables|);
    TableStands(src, plan, i, |plan.tables|);
    StandsInFront(tables, at, TableBytes(src, plan, table), SlotsBytes(src, plan.leaves, |plan.leaves|));
    StandsInFront(tables + SlotsBytes(src, plan.leaves, |plan.leaves|), at, TableBytes(src, plan, table), Concat(plan.strings));
    EntriesBounded(src, table);
    NewEntriesFit(src, plan, Entries(src, table).value);
    TableRoundTrip(src, plan, table, LayoutBytes(src, plan), at);
  }

  lemma EntriesBounded(src: Block, table: nat)
    requires Entries(src, table).Some?
    ensures forall e :: e in Entries(src, table).value ==> e.name < U32 && e.target < U32
  {
  }

  lemma LeafMirrored(src: Block, plan: Plan, leaf: nat)
    requires leaf in plan.leaves && ReadRecord(src, leaf).Some?
    requires |TablesBytes(src, plan, |plan.tables|)| == TablesSize(src, plan.tables)
    ensures ReadRecord(Block(LayoutBytes(src, plan), 0), LeafAt(src, plan, leaf)) == ReadRecord(src, leaf)
  {
    hide TablesBytes, SlotsBytes, Concat, TablesSize;
    var i := Last(plan.leaves, leaf);
    var tables, slots := TablesBytes(src, plan, |plan.tables|), SlotsBytes(src, plan.leaves, |plan.leaves|);
    var slot := SlotBytes(src, plan.leaves, i);
    SlotStands(src, plan.leaves, i, |plan.leaves|);
    StandsBehind(tables, slots, RECORD_SIZE * i, slot);
    StandsInFront(tables + slots, LeafAt(src, plan, leaf), slot, Concat(plan.strings));
    assert slot == ReadRecord(src, leaf).value;
  }

  lemma TextMirrored(src: Block, plan: Plan, text: seq<byte>)
    requires text in plan.strings && Counted(text) && StringAt(src, plan, text) < FLAG
    requires |TablesBytes(src, plan, |plan.tables|)| == TablesSize(src, plan.tables)
    ensures ReadString(Block(LayoutBytes(src, plan), 0), Mark(StringAt(src, plan, text))) == Some(text)
  {
    hide TablesBytes, SlotsBytes, Concat, TablesSize, Counted, ReadString, StartsAt;
    var i := First(plan.strings, text);
    var tables, slots := TablesBytes(src, plan, |plan.tables|), SlotsBytes(src, plan.leaves, |plan.leaves|);
    SlotsSize(src, plan.leaves, |plan.leaves|);
    PartStands(plan.strings, i);
    StandsBehind(tables + slots, Concat(plan.strings), |Concat(plan.strings[..i])|, text);
    TextRoundTrip(LayoutBytes(src, plan), StringAt(src, plan, text), text);
  }

  lemma SlotsSize(src: Block, leaves: seq<nat>, count: nat)
    requires count <= |leaves|
    ensures |SlotsBytes(src, leaves, count)| == RECORD_SIZE * count
  {
  }

  /** What a plan made from a source satisfies. */
  ghost predicate Planned(src: Block, plan: Plan) {
    && Distinct(plan.tables) && Closed(src, plan.tables, 0) && [0] <= plan.tables
    && (forall t :: t in plan.tables ==> Entries(src, t).Some?)
    && Distinct(plan.strings) && (forall text :: text in plan.strings ==> Counted(text))
    && Tables(src, [0], 0) == Some(plan.tables) && Leaves(src, 0, 0) == Some(plan.leaves)
    && Strings(src, Names(src, plan.tables)) == Some(plan.strings)
  }

  lemma PlansAreMade(src: Block)
    requires PlanOf(src).Some?
    ensures Planned(src, PlanOf(src).value)
  {
    hide Tables, Leaves, Strings, Names, Counted, Closed, Entries;
    var plan := PlanOf(src).value;
    TablesAreClosed(src, [0], 0);
    StringsAreCounted(src, Names(src, plan.tables));
    ClosedReads(src, plan.tables);
  }

  lemma ClosedReads(src: Block, tables: seq<nat>)
    requires Closed(src, tables, 0)
    ensures forall t :: t in tables ==> Entries(src, t).Some?
  {
    hide Entries;
  }

  lemma LayoutMirrors(src: Block, plan: Plan)
    requires Planned(src, plan) && Writable(src, plan) && |LayoutBytes(src, plan)| <= FLAG
    ensures Mirrors(src, plan, Block(LayoutBytes(src, plan), 0))
  {
    hide LayoutBytes, ReadRecord, Entries, NewEntries, TableAt, LeafAt, StringAt, ReadString, Counted, Tables, Leaves, Strings,
      Names, Closed, TablesBytes, TablesSize;
    LayoutSize(src, plan);
    forall table | table in plan.tables
      ensures ReadRecord(src, table).Some? && TableAt(src, plan, table) < FLAG
        && ReadRecord(Block(LayoutBytes(src, plan), 0), TableAt(src, plan, table)) == ReadRecord(src, table)
        && Entries(Block(LayoutBytes(src, plan), 0), TableAt(src, plan, table))
           == Some(NewEntries(src, plan, Entries(src, table).value))
    {
      PlacesInside(src, plan, table, 0, []);
      TableMirrored(src, plan, table);
    }
    forall leaf | leaf in plan.leaves
      ensures LeafAt(src, plan, leaf) < FLAG
        && ReadRecord(Block(LayoutBytes(src, plan), 0), LeafAt(src, plan, leaf)) == ReadRecord(src, leaf)
    {
      PlacesInside(src, plan, 0, leaf, []);
      LeafMirrored(src, plan, leaf);
    }
    forall text | text in plan.strings
      ensures ReadString(Block(LayoutBytes(src, plan), 0), Mark(StringAt(src, plan, text))) == Some(text)
    {
      TextsAreNotEmpty(text);
      PlacesInside(src, plan, 0, 0, text);
      TextMirrored(src, plan, text);
    }
  }

  lemma TextsAreNotEmpty(text: seq<byte>)
    requires Counted(text)
    ensures |text| >= 2
  {
  }

  // ----- the same tree

  /** The tables and texts that entries lead to are in the plan. */
  ghost predicate Known(src: Block, plan: Plan, entries: seq<Entry>) {
    forall e :: e in entries ==>
      && (Marked(e.target) ==> Unmarked(e.target) in plan.tables)
      && (Marked(e.name) ==> ReadString(src, e.name).Some? && ReadString(src, e.name).value in plan.strings)
  }

  lemma {:induction false} MarkedNamesHold(entries: seq<Entry>)
    ensures forall e :: e in entries && Marked(e.name) ==> e.name in MarkedNames(entries)
  {
    if entries != [] {
      MarkedNamesHold(entries[1..]);
      assert entries == [entries[0]] + entries[1..];
    }
  }

  lemma {:induction false} NamesHold(src: Block, tables: seq<nat>)
    ensures forall t, e :: t in tables && Entries(src, t).Some? && e in Entries(src, t).value && Marked(e.name) ==>
              e.name in Names(src, tables)
  {
    hide Entries, Marked;
    if tables != [] {
      var front, last := tables[..|tables| - 1], tables[|tables| - 1];
      NamesHold(src, front);
      assert tables == front + [last];
      if Entries(src, last).Some? {
        MarkedNamesHold(Entries(src, last).value);
      }
    }
  }

  lemma TablesAreKnown(src: Block, plan: Plan, table: nat)
    requires Planned(src, plan) && table in plan.tables
    ensures Known(src, plan, Entries(src, table).value)
  {
    hide Entries, Names, Strings, ReadString, Children, Tables, Leaves, Counted;
    NamesHold(src, plan.tables);
    StringsAreCounted(src, Names(src, plan.tables));
    var entries := Entries(src, table).value;
    ChildrenHold(entries);
    var i :| 0 <= i < |plan.tables| && plan.tables[i] == table;
    assert forall c :: c in Children(Entries(src, plan.tables[i]).value) ==> c in plan.tables;
  }

  lemma ChildrenHold(entries: seq<Entry>)
    ensures forall e :: e in entries && Marked(e.target) ==> Unmarked(e.target) in Children(entries)
  {
  }

  lemma SameLabel(src: Block, plan: Plan, block: Block, name: nat)
    requires Mirrors(src, plan, block)
    requires Marked(name) ==> ReadString(src, name).Some? && ReadString(src, name).value in plan.strings
    ensures ReadLabel(block, NewName(src, plan, name)) == ReadLabel(src, name) && ReadLabel(src, name).Some?
  {
    hide ReadString, StringAt;
  }

  lemma {:induction false} SameTree(src: Block, plan: Plan, block: Block, table: nat, depth: nat)
    requires Planned(src, plan) && Mirrors(src, plan, block) && table in plan.tables
    requires Leaves(src, table, depth).Some? && forall leaf :: leaf in Leaves(src, table, depth).value ==> leaf in plan.leaves
    ensures ReadTable(block, TableAt(src, plan, table), depth) == ReadTable(src, table, depth) && ReadTable(src, table, depth).Some?
    decreases MAX_DEPTH - depth, 0, 0
  {
    hide Entries, NewEntries, ReadRecord, TableAt, Planned, Known, LeavesBelow, ReadBranches;
    TablesAreKnown(src, plan, table);
    SameBranches(src, plan, block, Entries(src, table).value, depth);
  }

  lemma {:induction false} SameBranches(src: Block, plan: Plan, block: Block, entries: seq<Entry>, depth: nat)
    requires Planned(src, plan) && Mirrors(src, plan, block) && Known(src, plan, entries) && depth < MAX_DEPTH
    requires LeavesBelow(src, entries, depth).Some? && forall leaf :: leaf in LeavesBelow(src, entries, depth).value ==> leaf in plan.leaves
    ensures ReadBranches(block, NewEntries(src, plan, entries), depth) == ReadBranches(src, entries, depth)
    ensures ReadBranches(src, entries, depth).Some?
    decreases MAX_DEPTH - depth - 1, 1, |entries|
  {
    hide Entries, ReadRecord, TableAt, Planned, Mirrors, ReadLabel, ReadTarget, Leaves, NewName, NewTarget, Children;
    if entries != [] {
      assert entries[0] in entries && forall e :: e in entries[1..] ==> e in entries;
      SameLabel(src, plan, block, entries[0].name);
      SameTarget(src, plan, block, entries[0].target, depth);
      SameBranches(src, plan, block, entries[1..], depth);
      assert NewEntries(src, plan, entries)[1..] == NewEntries(src, plan, entries[1..]);
    }
  }

  lemma {:induction false} SameTarget(src: Block, plan: Plan, block: Block, target: nat, depth: nat)
    requires Planned(src, plan) && Mirrors(src, plan, block) && depth < MAX_DEPTH
    requires Marked(target) ==> Unmarked(target) in plan.tables && Leaves(src, Unmarked(target), depth + 1).Some?
    requires Marked(target) ==> forall leaf :: leaf in Leaves(src, Unmarked(target), depth + 1).value ==> leaf in plan.leaves
    requires !Marked(target) ==> target in plan.leaves
    ensures ReadTarget(block, NewTarget(src, plan, target), depth) == ReadTarget(src, target, depth)
    ensures ReadTarget(src, target, depth).Some?
    decreases MAX_DEPTH - depth - 1, 1, 0
  {
    hide Entries, ReadRecord, TableAt, LeafAt, Planned, Leaves, ReadTable;
    if Marked(target) {
      SameTree(src, plan, block, Unmarked(target), depth + 1);
    }
  }

  /** The tree read from the block is the source's tree. */
  lemma LayoutKeepsTheTree(src: Block)
    requires LinkerLayout(src).Some? && |LinkerLayout(src).value.bytes| <= FLAG
    ensures ReadTable(src, 0, 0).Some?
    ensures ReadTable(Block(LinkerLayout(src).value.bytes, 0), 0, 0) == ReadTable(src, 0, 0)
  {
    hide PlanOf, Planned, Mirrors, Writable, LayoutBytes, ReadTable, Leaves, LeafPlaces;
    var plan := PlanOf(src).value;
    PlansAreMade(src);
    LayoutMirrors(src, plan);
    RootComesFirst(src, plan);
    SameTree(src, plan, Block(LayoutBytes(src, plan), 0), 0, 0);
  }

  lemma RootComesFirst(src: Block, plan: Plan)
    requires Planned(src, plan)
    ensures 0 in plan.tables && TableAt(src, plan, 0) == 0 && Leaves(src, 0, 0) == Some(plan.leaves)
  {
    hide Leaves, Tables, Strings, Names, Closed, Entries;
    assert plan.tables[0] == 0;
  }

  // ----- the order of the leaves

  function LeafRecords(node: Node): seq<seq<byte>>
    decreases node, if node.Table? then |node.branches| + 1 else 0
  {
    match node
    case Leaf(record) => [record]
    case Table(_, _) => RecordsFrom(node, 0)
  }

  /** The leaf records below a table's branches, from one of them on. */
  function RecordsFrom(node: Node, i: nat): seq<seq<byte>>
    requires node.Table? && i <= |node.branches|
    decreases node, |node.branches| - i
  {
    if i == |node.branches| then [] else LeafRecords(node.branches[i].node) + RecordsFrom(node, i + 1)
  }

  function Records(src: Block, leaves: seq<nat>): seq<seq<byte>> {
    if leaves == [] then []
    else (if ReadRecord(src, leaves[0]).Some? then [ReadRecord(src, leaves[0]).value] else []) + Records(src, leaves[1..])
  }

  lemma {:induction false} RecordsOfBoth(src: Block, a: seq<nat>, b: seq<nat>)
    ensures Records(src, a + b) == Records(src, a) + Records(src, b)
    decreases |a|
  {
    hide ReadRecord;
    if a == [] {
      assert a + b == b;
    } else {
      assert (a + b)[1..] == a[1..] + b;
      RecordsOfBoth(src, a[1..], b);
    }
  }

  /** The collected leaves are the tree's, from left to right. */
  lemma {:induction false} LeavesAreTheTrees(src: Block, table: nat, depth: nat)
    requires ReadTable(src, table, depth).Some?
    ensures Leaves(src, table, depth).Some?
    ensures Records(src, Leaves(src, table, depth).value) == LeafRecords(ReadTable(src, table, depth).value)
    decreases MAX_DEPTH - depth, 0, 0
  {
    hide Entries, ReadRecord, ReadBranches, LeavesBelow;
    var node := ReadTable(src, table, depth).value;
    assert node.branches[0..] == node.branches;
    LeavesAreTheBranches(src, Entries(src, table).value, depth, node, 0);
  }

  lemma {:induction false} LeavesAreTheBranches(src: Block, entries: seq<Entry>, depth: nat, node: Node, i: nat)
    requires depth < MAX_DEPTH && node.Table? && i <= |node.branches|
    requires ReadBranches(src, entries, depth) == Some(node.branches[i..])
    ensures LeavesBelow(src, entries, depth).Some?
    ensures Records(src, LeavesBelow(src, entries, depth).value) == RecordsFrom(node, i)
    decreases MAX_DEPTH - depth - 1, 1, |entries|
  {
    hide Entries, ReadRecord, ReadTable, ReadLabel, Leaves;
    if entries != [] {
      var target, rest := entries[0].target, entries[1..];
      assert ReadBranches(src, entries, depth).value[1..] == ReadBranches(src, rest, depth).value;
      assert node.branches[i..][0] == node.branches[i] && node.branches[i..][1..] == node.branches[i + 1..];
      LeavesAreTheBranches(src, rest, depth, node, i + 1);
      if Marked(target) {
        LeavesAreTheTrees(src, Unmarked(target), depth + 1);
      }
      var first := if Marked(target) then Leaves(src, Unmarked(target), depth + 1).value else [target];
      RecordsOfBoth(src, first, LeavesBelow(src, rest, depth).value);
      if !Marked(target) {
        OneRecord(src, target);
      }
    }
  }

  lemma OneRecord(src: Block, leaf: nat)
    requires ReadRecord(src, leaf).Some?
    ensures Records(src, [leaf]) == [ReadRecord(src, leaf).value]
  {
    assert Records(src, [leaf][1..]) == [];
  }

  // ----- shared texts

  /** Two names lead to one place exactly when they are the same text. */
  lemma TextsAreShared(src: Block, plan: Plan, a: nat, b: nat)
    requires Planned(src, plan) && |LayoutBytes(src, plan)| <= FLAG && Marked(a) && Marked(b)
    requires ReadString(src, a).Some? && ReadString(src, a).value in plan.strings
    requires ReadString(src, b).Some? && ReadString(src, b).value in plan.strings
    ensures NewName(src, plan, a) == NewName(src, plan, b) <==> ReadString(src, a) == ReadString(src, b)
  {
    hide Entries, Tables, Leaves, Strings, Names, Closed, ReadString, LayoutBytes, Concat, TablesSize;
    var s, t := ReadString(src, a).value, ReadString(src, b).value;
    PlacesInside(src, plan, 0, 0, s);
    PlacesInside(src, plan, 0, 0, t);
    TextsAreNotEmpty(s);
    TextsAreNotEmpty(t);
    var i, j := First(plan.strings, s), First(plan.strings, t);
    if i < j {
      EarlierText(plan.strings, i, j);
    } else if j < i {
      EarlierText(plan.strings, j, i);
    }
  }

  lemma EarlierText(strings: seq<seq<byte>>, i: nat, j: nat)
    requires i < j <= |strings|
    ensures |Concat(strings[..i])| + |strings[i]| <= |Concat(strings[..j])|
  {
    assert strings[..j][..i] == strings[..i];
    ConcatGrows(strings[..j], i);
  }
}
