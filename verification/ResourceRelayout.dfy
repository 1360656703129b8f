/** A block that is already laid out is laid out again as it is. */
module ResourceRelayout {
  import opened Wrappers
  import opened Bytes
  import opened Resources
  import opened ResourceLayout
  import opened ResourceWalk

  // ----- places are as distinct as what they hold

  function TablePlaces(src: Block, plan: Plan, tables: seq<nat>): (r: seq<nat>)
    ensures |r| == |tables|
  {
    seq(|tables|, i requires 0 <= i < |tables| => TableAt(src, plan, tables[i]))
  }

  lemma TablesApart(src: Block, plan: Plan, a: nat, b: nat)
    requires a in plan.tables && b in plan.tables && TableAt(src, plan, a) == TableAt(src, plan, b)
    ensures a == b
  {
    hide TablesSize;
    var i, j := First(plan.tables, a), First(plan.tables, b);
    var low, high := if i <= j then i else j, if i <= j then j else i;
    TablesSizeGrows(src, plan.tables[..high], low);
    assert plan.tables[..high][..low] == plan.tables[..low];
  }

  lemma LeavesApart(src: Block, plan: Plan, a: nat, b: nat)
    requires a in plan.leaves && b in plan.leaves && LeafAt(src, plan, a) == LeafAt(src, plan, b)
    ensures a == b
  {
  }

  /** A one-to-one map keeps first and last places. */
  lemma {:induction false} SameFirst(s: seq<nat>, t: seq<nat>, x: nat, y: nat)
    requires |s| == |t| && forall i :: 0 <= i < |s| ==> (s[i] == x <==> t[i] == y)
    ensures First(s, x) == First(t, y)
  {
    if s != [] && s[0] != x {
      SameFirst(s[1..], t[1..], x, y);
    }
  }

  lemma {:induction false} SameLast(s: seq<nat>, t: seq<nat>, x: nat, y: nat)
    requires |s| == |t| && forall i :: 0 <= i < |s| ==> (s[i] == x <==> t[i] == y)
    ensures Last(s, x) == Last(t, y)
  {
    if s != [] && s[|s| - 1] != x {
      SameLast(s[..|s| - 1], t[..|t| - 1], x, y);
    }
  }

  // ----- sizes

  lemma SameCount(src: Block, plan: Plan, block: Block, table: nat)
    requires Mirrors(src, plan, block) && table in plan.tables
    ensures EntryCount(block, TableAt(src, plan, table)) == EntryCount(src, table)
  {
    hide Entries, NewEntries, TableAt;
    NewEntriesAre(src, plan, Entries(src, table).value);
  }

  lemma {:induction false} SameSizes(src: Block, plan: Plan, block: Block, tables: seq<nat>)
    requires Mirrors(src, plan, block) && forall t :: t in tables ==> t in plan.tables
    ensures TablesSize(block, TablePlaces(src, plan, tables)) == TablesSize(src, tables)
    ensures Total(block, TablePlaces(src, plan, tables)) == Total(src, tables)
  {
    hide TableAt, EntryCount, Mirrors;
    if tables != [] {
      var front, last := tables[..|tables| - 1], tables[|tables| - 1];
      SameSizes(src, plan, block, front);
      SameCount(src, plan, block, last);
      assert TablePlaces(src, plan, tables)[..|tables| - 1] == TablePlaces(src, plan, front);
    }
  }

  // ----- the same tables, breadth first

  lemma {:induction false} SameChildren(src: Block, plan: Plan, entries: seq<Entry>)
    requires forall e :: e in entries && Marked(e.target) ==> TableAt(src, plan, Unmarked(e.target)) < FLAG
    requires forall e :: e in entries && !Marked(e.target) ==> LeafAt(src, plan, e.target) < FLAG
    ensures Children(NewEntries(src, plan, entries)) == TablePlaces(src, plan, Children(entries))
  {
    hide TableAt, LeafAt, NewName, NewTarget, TablePlaces;
    if entries == [] {
      assert TablePlaces(src, plan, []) == [] by { NoPlaces(src, plan); }
    } else {
      var e := entries[0];
      assert e in entries;
      var first: seq<nat> := if Marked(e.target) then [Unmarked(e.target)] else [];
      SameMark(src, plan, e.target);
      SameChildren(src, plan, entries[1..]);
      PlacesOfBoth(src, plan, first, Children(entries[1..]));
      assert NewEntries(src, plan, entries)[1..] == NewEntries(src, plan, entries[1..]);
    }
  }

  lemma NoPlaces(src: Block, plan: Plan)
    ensures TablePlaces(src, plan, []) == []
  {
  }

  lemma PlacesOfBoth(src: Block, plan: Plan, a: seq<nat>, b: seq<nat>)
    ensures TablePlaces(src, plan, a + b) == TablePlaces(src, plan, a) + TablePlaces(src, plan, b)
    ensures |a| == 1 ==> TablePlaces(src, plan, a) == [TableAt(src, plan, a[0])]
    ensures a == [] ==> TablePlaces(src, plan, a) == []
  {
    hide TableAt;
  }

  lemma SameMark(src: Block, plan: Plan, target: nat)
    requires Marked(target) ==> TableAt(src, plan, Unmarked(target)) < FLAG
    requires !Marked(target) ==> LeafAt(src, plan, target) < FLAG
    ensures Marked(NewTarget(src, plan, target)) == Marked(target)
    ensures Marked(target) ==> Unmarked(NewTarget(src, plan, target)) == TableAt(src, plan, Unmarked(target))
  {
    hide TableAt, LeafAt;
  }

  lemma {:induction false} SameWithChildren(src: Block, plan: Plan, block: Block, found: seq<nat>, children: seq<nat>)
    requires Mirrors(src, plan, block) && (forall t :: t in found + children ==> t in plan.tables)
    requires WithChildren(src, found, children).Some?
    ensures WithChildren(block, TablePlaces(src, plan, found), TablePlaces(src, plan, children))
         == Some(TablePlaces(src, plan, found + children))
    decreases |children|
  {
    hide TableAt, Entries, Total, Mirrors;
    var places := TablePlaces(src, plan, children);
    if children == [] {
      assert found + children == found;
    } else {
      var c := children[0];
      var more := found + [c];
      assert c in found + children;
      assert more + children[1..] == found + children;
      assert TablePlaces(src, plan, found) + [places[0]] == TablePlaces(src, plan, more);
      assert TablePlaces(src, plan, children[1..]) == places[1..];
      forall i | 0 <= i < |found|
        ensures TableAt(src, plan, found[i]) != TableAt(src, plan, c)
      {
        assert found[i] in found + children;
        if TableAt(src, plan, found[i]) == TableAt(src, plan, c) {
          TablesApart(src, plan, found[i], c);
        }
      }
      assert forall t :: t in more ==> t in found + children;
      SameSizes(src, plan, block, more);
      MirroredTable(src, plan, block, c);
      SameWithChildren(src, plan, block, more, children[1..]);
    }
  }

  lemma {:induction false} SameTables(src: Block, plan: Plan, block: Block, found: seq<nat>, next: nat)
    requires Planned(src, plan) && Mirrors(src, plan, block) && LeavesKnown(src, plan)
    requires next <= |found| && Distinct(found) && Tables(src, found, next) == Some(plan.tables)
    ensures Tables(block, TablePlaces(src, plan, found), next) == Some(TablePlaces(src, plan, plan.tables))
    decreases Unseen(found), |found| - next
  {
    hide TableAt, LeafAt, Entries, WithChildren, Children, NewEntries, Planned, LeavesKnown, Mirrors, Unseen, TablePlaces;
    if next < |found| {
      var t := found[next];
      var children := Children(Entries(src, t).value);
      FewerUnseen(src, found, next);
      TablesStep(src, plan, found, next);
      EntriesReach(src, plan, block, t);
      SameWithChildren(src, plan, block, found, children);
      SameChildren(src, plan, Entries(src, t).value);
      PlaceOf(src, plan, block, found, next);
      SameTables(src, plan, block, found + children, next + 1);
    }
  }

  lemma PlaceOf(src: Block, plan: Plan, block: Block, found: seq<nat>, next: nat)
    requires Mirrors(src, plan, block) && next < |found| && found[next] in plan.tables
    ensures Entries(block, TablePlaces(src, plan, found)[next]) == Some(NewEntries(src, plan, Entries(src, found[next]).value))
  {
    hide Entries, TableAt, NewEntries;
  }

  lemma TablesStep(src: Block, plan: Plan, found: seq<nat>, next: nat)
    requires next < |found| && Distinct(found) && Tables(src, found, next) == Some(plan.tables)
    ensures Entries(src, found[next]).Some?
    ensures var children := Children(Entries(src, found[next]).value);
      && WithChildren(src, found, children) == Some(found + children) && Distinct(found + children)
      && Tables(src, found + children, next + 1) == Some(plan.tables)
      && (forall t :: t in found + children ==> t in plan.tables) && found[next] in plan.tables
  {
    hide Entries, WithChildren, Children, Unseen;
    var children := Children(Entries(src, found[next]).value);
    WithChildrenAdds(src, found, children);
    ChildrenAreNew(src, found, children);
    TablesAreClosed(src, found + children, next + 1);
    assert found[next] in found + children;
  }

  lemma EntriesReach(src: Block, plan: Plan, block: Block, table: nat)
    requires Planned(src, plan) && Mirrors(src, plan, block) && LeavesKnown(src, plan) && table in plan.tables
    ensures forall e :: e in Entries(src, table).value && Marked(e.target) ==> TableAt(src, plan, Unmarked(e.target)) < FLAG
    ensures forall e :: e in Entries(src, table).value && !Marked(e.target) ==> LeafAt(src, plan, e.target) < FLAG
  {
    hide Entries, TableAt, LeafAt, Planned, NewEntries, ReadRecord, ReadString;
    TablesAreKnown(src, plan, table);
  }

  // ----- the same leaves, depth first

  lemma {:induction false} SameLeaves(src: Block, plan: Plan, block: Block, table: nat, depth: nat)
    requires Planned(src, plan) && Mirrors(src, plan, block) && LeavesKnown(src, plan) && table in plan.tables
    requires Leaves(src, table, depth).Some?
    ensures Leaves(block, TableAt(src, plan, table), depth) == Some(LeafPlaces(src, plan, Leaves(src, table, depth).value))
    decreases MAX_DEPTH - depth, 0, 0
  {
    hide Entries, NewEntries, ReadRecord, TableAt, Planned, LeavesKnown, Known, LeavesBelow, LeafPlaces;
    TablesAreKnown(src, plan, table);
    EntriesReach(src, plan, block, table);
    SameLeavesBelow(src, plan, block, Entries(src, table).value, depth);
  }

  lemma {:induction false} SameLeavesBelow(src: Block, plan: Plan, block: Block, entries: seq<Entry>, depth: nat)
    requires Planned(src, plan) && Mirrors(src, plan, block) && LeavesKnown(src, plan) && Known(src, plan, entries)
    requires forall e :: e in entries && Marked(e.target) ==> TableAt(src, plan, Unmarked(e.target)) < FLAG
    requires forall e :: e in entries && !Marked(e.target) ==> LeafAt(src, plan, e.target) < FLAG
    requires depth < MAX_DEPTH && LeavesBelow(src, entries, depth).Some?
    ensures LeavesBelow(block, NewEntries(src, plan, entries), depth)
         == Some(LeafPlaces(src, plan, LeavesBelow(src, entries, depth).value))
    decreases MAX_DEPTH - depth - 1, 1, |entries|
  {
    hide TableAt, LeafAt, NewName, Planned, Mirrors, LeavesKnown, Leaves, LeafPlaces, NewTarget, ReadString;
    if entries == [] {
      NoLeafPlaces(src, plan);
    } else {
      var e := entries[0];
      assert e in entries && forall x :: x in entries[1..] ==> x in entries;
      SameMark(src, plan, e.target);
      if Marked(e.target) {
        SameLeaves(src, plan, block, Unmarked(e.target), depth + 1);
      } else {
        OneLeafPlace(src, plan, e.target);
      }
      SameLeavesBelow(src, plan, block, entries[1..], depth);
      var first := if Marked(e.target) then Leaves(src, Unmarked(e.target), depth + 1).value else [e.target];
      LeafPlacesOfBoth(src, plan, first, LeavesBelow(src, entries[1..], depth).value);
      assert NewEntries(src, plan, entries)[1..] == NewEntries(src, plan, entries[1..]);
    }
  }

  lemma NoLeafPlaces(src: Block, plan: Plan)
    ensures LeafPlaces(src, plan, []) == []
  {
  }

  lemma OneLeafPlace(src: Block, plan: Plan, leaf: nat)
    requires !Marked(leaf)
    ensures LeafPlaces(src, plan, [leaf]) == [NewTarget(src, plan, leaf)]
  {
    hide LeafAt;
  }

  lemma LeafPlacesOfBoth(src: Block, plan: Plan, a: seq<nat>, b: seq<nat>)
    ensures LeafPlaces(src, plan, a + b) == LeafPlaces(src, plan, a) + LeafPlaces(src, plan, b)
  {
    hide LeafAt;
  }

  // ----- the same texts

  function NewNames(src: Block, plan: Plan, names: seq<nat>): (r: seq<nat>)
    ensures |r| == |names|
  {
    seq(|names|, i requires 0 <= i < |names| => NewName(src, plan, names[i]))
  }

  lemma NewNamesOfBoth(src: Block, plan: Plan, a: seq<nat>, b: seq<nat>)
    ensures NewNames(src, plan, a + b) == NewNames(src, plan, a) + NewNames(src, plan, b)
    ensures |a| == 1 ==> NewNames(src, plan, a) == [NewName(src, plan, a[0])]
    ensures a == [] ==> NewNames(src, plan, a) == []
  {
    hide NewName;
  }

  lemma SameText(src: Block, plan: Plan, block: Block, name: nat)
    requires Mirrors(src, plan, block)
    requires Marked(name) ==> ReadString(src, name).Some? && ReadString(src, name).value in plan.strings
    ensures Marked(NewName(src, plan, name)) == Marked(name)
    ensures Marked(name) ==> ReadString(block, NewName(src, plan, name)) == ReadString(src, name)
  {
    hide ReadString, StringAt;
  }

  lemma {:induction false} SameMarkedNames(src: Block, plan: Plan, block: Block, entries: seq<Entry>)
    requires Mirrors(src, plan, block) && Known(src, plan, entries)
    ensures MarkedNames(NewEntries(src, plan, entries)) == NewNames(src, plan, MarkedNames(entries))
  {
    hide Mirrors, NewName, NewTarget, NewNames, ReadString;
    if entries == [] {
      NewNamesOfBoth(src, plan, [], []);
    } else {
      var e := entries[0];
      assert e in entries && forall x :: x in entries[1..] ==> x in entries;
      SameText(src, plan, block, e.name);
      SameMarkedNames(src, plan, block, entries[1..]);
      NewNamesOfBoth(src, plan, if Marked(e.name) then [e.name] else [], MarkedNames(entries[1..]));
      assert NewEntries(src, plan, entries)[1..] == NewEntries(src, plan, entries[1..]);
    }
  }

  lemma {:induction false} SameNames(src: Block, plan: Plan, block: Block, tables: seq<nat>)
    requires Planned(src, plan) && Mirrors(src, plan, block) && forall t :: t in tables ==> t in plan.tables
    ensures Names(block, TablePlaces(src, plan, tables)) == NewNames(src, plan, Names(src, tables))
  {
    hide Planned, Entries, NewEntries, NewNames, TableAt, ReadRecord, ReadString, Known, MarkedNames;
    if tables == [] {
      NewNamesOfBoth(src, plan, [], []);
    } else {
      var front, last := tables[..|tables| - 1], tables[|tables| - 1];
      assert TablePlaces(src, plan, tables)[..|tables| - 1] == TablePlaces(src, plan, front);
      assert forall t :: t in front ==> t in tables;
      assert last in tables;
      SameNames(src, plan, block, front);
      TablesAreKnown(src, plan, last);
      SameMarkedNames(src, plan, block, Entries(src, last).value);
      NewNamesOfBoth(src, plan, Names(src, front), MarkedNames(Entries(src, last).value));
    }
  }

  lemma {:induction false} SameStrings(src: Block, plan: Plan, block: Block, names: seq<nat>)
    requires Mirrors(src, plan, block)
    requires forall name :: name in names ==> Marked(name) && ReadString(src, name).Some? && ReadString(src, name).value in plan.strings
    ensures Strings(block, NewNames(src, plan, names)) == Strings(src, names)
  {
    hide Mirrors, NewName, ReadString;
    if names != [] {
      var front, last := names[..|names| - 1], names[|names| - 1];
      assert NewNames(src, plan, names)[..|names| - 1] == NewNames(src, plan, front);
      assert last in names && forall n :: n in front ==> n in names;
      SameStrings(src, plan, block, front);
      SameText(src, plan, block, last);
    }
  }

  lemma {:induction false} NamesAreMarked(src: Block, tables: seq<nat>)
    ensures forall name :: name in Names(src, tables) ==> Marked(name)
  {
    hide Entries;
    if tables != [] {
      NamesAreMarked(src, tables[..|tables| - 1]);
      if Entries(src, tables[|tables| - 1]).Some? {
        MarkedNamesAreMarked(Entries(src, tables[|tables| - 1]).value);
      }
    }
  }

  lemma {:induction false} MarkedNamesAreMarked(entries: seq<Entry>)
    ensures forall name :: name in MarkedNames(entries) ==> Marked(name)
  {
    if entries != [] {
      MarkedNamesAreMarked(entries[1..]);
    }
  }

  // ----- the same plan

  /** The plan with every table and record at its place. */
  function Moved(src: Block, plan: Plan): Plan {
    Plan(TablePlaces(src, plan, plan.tables), LeafPlaces(src, plan, plan.leaves), plan.strings)
  }

  lemma PlanOfTheLayout(src: Block, plan: Plan, block: Block)
    requires Planned(src, plan) && Mirrors(src, plan, block) && LeavesKnown(src, plan)
    ensures PlanOf(block) == Some(Moved(src, plan))
  {
    hide Entries, NewEntries, TableAt, LeafAt, ReadRecord, ReadString, Tables, Leaves, Strings, Names, NewNames, Closed,
      LeavesKnown, TablePlaces, Counted;
    RootComesFirst(src, plan);
    PlacesOfBoth(src, plan, [0], []);
    assert [0] + [] == [0];
    assert Entries(block, 0).Some?;
    SameTables(src, plan, block, [0], 0);
    SameLeaves(src, plan, block, 0, 0);
    SameNames(src, plan, block, plan.tables);
    StringsAreCounted(src, Names(src, plan.tables));
    NamesAreMarked(src, plan.tables);
    SameStrings(src, plan, block, Names(src, plan.tables));
  }

  // ----- the same places

  lemma TableStays(src: Block, plan: Plan, block: Block, table: nat)
    requires Mirrors(src, plan, block) && table in plan.tables
    ensures TableAt(block, Moved(src, plan), TableAt(src, plan, table)) == TableAt(src, plan, table)
  {
    hide Mirrors, LeafPlaces, TablesSize;
    var at := TableAt(src, plan, table);
    var places := TablePlaces(src, plan, plan.tables);
    forall i | 0 <= i < |places|
      ensures plan.tables[i] == table <==> places[i] == at
    {
      if places[i] == at {
        TablesApart(src, plan, plan.tables[i], table);
      }
    }
    SameFirst(plan.tables, places, table, at);
    var count := First(plan.tables, table);
    assert places[..count] == TablePlaces(src, plan, plan.tables[..count]);
    SameSizes(src, plan, block, plan.tables[..count]);
  }

  lemma SameStart(src: Block, plan: Plan, block: Block)
    requires Mirrors(src, plan, block)
    ensures TablesSize(block, Moved(src, plan).tables) == TablesSize(src, plan.tables)
    ensures StringsStart(block, Moved(src, plan)) == StringsStart(src, plan)
    ensures forall text :: StringAt(block, Moved(src, plan), text) == StringAt(src, plan, text)
  {
    hide Mirrors, TablesSize, TablePlaces, Concat;
    SameSizes(src, plan, block, plan.tables);
  }

  lemma SameLastLeaf(src: Block, plan: Plan, leaf: nat)
    requires leaf in plan.leaves
    ensures Last(LeafPlaces(src, plan, plan.leaves), LeafAt(src, plan, leaf)) == Last(plan.leaves, leaf)
  {
    hide LeafAt;
    var at := LeafAt(src, plan, leaf);
    var places := LeafPlaces(src, plan, plan.leaves);
    forall i | 0 <= i < |places|
      ensures plan.leaves[i] == leaf <==> places[i] == at
    {
      if places[i] == at {
        LeavesApart(src, plan, plan.leaves[i], leaf);
      }
    }
    SameLast(plan.leaves, places, leaf, at);
  }

  lemma LeafStays(src: Block, plan: Plan, block: Block, leaf: nat)
    requires Mirrors(src, plan, block) && leaf in plan.leaves
    ensures LeafAt(block, Moved(src, plan), LeafAt(src, plan, leaf)) == LeafAt(src, plan, leaf)
  {
    hide Mirrors, TablesSize, TablePlaces, LeafPlaces;
    SameStart(src, plan, block);
    SameLastLeaf(src, plan, leaf);
  }

  // ----- the same bytes

  lemma EntryStays(src: Block, plan: Plan, block: Block, entry: Entry)
    requires Mirrors(src, plan, block) && Known(src, plan, [entry]) && (Marked(entry.target) || entry.target in plan.leaves)
    ensures NewEntry(block, Moved(src, plan), NewEntry(src, plan, entry)) == NewEntry(src, plan, entry)
  {
    hide TableAt, LeafAt, StringAt, ReadString, Moved;
    assert entry in [entry];
    SameText(src, plan, block, entry.name);
    SameStart(src, plan, block);
    assert Marked(entry.target) ==> TableAt(src, plan, Unmarked(entry.target)) < FLAG;
    assert !Marked(entry.target) ==> LeafAt(src, plan, entry.target) < FLAG;
    SameMark(src, plan, entry.target);
    if Marked(entry.target) {
      TableStays(src, plan, block, Unmarked(entry.target));
    } else {
      LeafStays(src, plan, block, entry.target);
    }
  }

  lemma EntriesStay(src: Block, plan: Plan, block: Block, entries: seq<Entry>)
    requires Mirrors(src, plan, block) && Known(src, plan, entries)
    requires forall e :: e in entries && !Marked(e.target) ==> e.target in plan.leaves
    ensures NewEntries(block, Moved(src, plan), NewEntries(src, plan, entries)) == NewEntries(src, plan, entries)
  {
    hide Mirrors, NewEntry, Moved, ReadString;
    NewEntriesAre(src, plan, entries);
    NewEntriesAre(block, Moved(src, plan), NewEntries(src, plan, entries));
    forall i | 0 <= i < |entries|
      ensures NewEntry(block, Moved(src, plan), NewEntry(src, plan, entries[i])) == NewEntry(src, plan, entries[i])
    {
      EntryStays(src, plan, block, entries[i]);
    }
  }

  lemma TableBytesStay(src: Block, plan: Plan, block: Block, table: nat)
    requires Planned(src, plan) && Mirrors(src, plan, block) && LeavesKnown(src, plan) && table in plan.tables
    ensures TableBytes(block, Moved(src, plan), TableAt(src, plan, table)) == TableBytes(src, plan, table)
  {
    hide Planned, Moved, NewEntries, Entries, ReadRecord, TableAt, Known, EntriesBytes;
    TablesAreKnown(src, plan, table);
    EntriesStay(src, plan, block, Entries(src, table).value);
  }

  lemma {:induction false} TablesBytesStay(src: Block, plan: Plan, block: Block, count: nat)
    requires Planned(src, plan) && Mirrors(src, plan, block) && LeavesKnown(src, plan) && count <= |plan.tables|
    ensures TablesBytes(block, Moved(src, plan), count) == TablesBytes(src, plan, count)
  {
    hide Planned, Mirrors, LeavesKnown, TableBytes, LeafPlaces, TableAt;
    if count > 0 {
      TableBytesStay(src, plan, block, plan.tables[count - 1]);
      TablesBytesStay(src, plan, block, count - 1);
    }
  }

  lemma SlotStays(src: Block, plan: Plan, block: Block, index: nat)
    requires Mirrors(src, plan, block) && index < |plan.leaves|
    ensures SlotBytes(block, LeafPlaces(src, plan, plan.leaves), index) == SlotBytes(src, plan.leaves, index)
  {
    hide LeafAt, Entries, NewEntries, TableAt, ReadString;
    SameLastLeaf(src, plan, plan.leaves[index]);
  }

  lemma {:induction false} SlotsStay(src: Block, plan: Plan, block: Block, count: nat)
    requires Mirrors(src, plan, block) && count <= |plan.leaves|
    ensures SlotsBytes(block, LeafPlaces(src, plan, plan.leaves), count) == SlotsBytes(src, plan.leaves, count)
  {
    hide Mirrors, SlotBytes, LeafPlaces;
    if count > 0 {
      SlotsStay(src, plan, block, count - 1);
      SlotStays(src, plan, block, count - 1);
    }
  }

  lemma BytesStay(src: Block, plan: Plan, block: Block)
    requires Planned(src, plan) && Mirrors(src, plan, block) && LeavesKnown(src, plan)
    ensures LayoutBytes(block, Moved(src, plan)) == LayoutBytes(src, plan)
  {
    hide Planned, Mirrors, LeavesKnown, TablesBytes, SlotsBytes, TablePlaces, LeafPlaces, Concat;
    TablesBytesStay(src, plan, block, |plan.tables|);
    SlotsStay(src, plan, block, |plan.leaves|);
  }

  lemma StillWritable(src: Block, plan: Plan, block: Block)
    requires Planned(src, plan) && Mirrors(src, plan, block) && LeavesKnown(src, plan) && PlanOf(block) == Some(Moved(src, plan))
    requires |LayoutBytes(src, plan)| <= FLAG
    ensures Writable(block, Moved(src, plan))
  {
    hide TableAt, LeafAt, StringAt, ReadRecord, Entries, NewEntries, ReadString, Planned, LayoutBytes, PlanOf;
    var moved := Moved(src, plan);
    PlansAreMade(block);
    BytesStay(src, plan, block);
    forall t, e | t in moved.tables && Entries(block, t).Some? && e in Entries(block, t).value
      ensures EntryFits(block, moved, e)
    {
      PlansRead(block, moved);
      var text := if ReadString(block, e.name).Some? then ReadString(block, e.name).value else [];
      PlacesInside(block, moved, Unmarked(e.target), e.target, text);
    }
    forall i | 0 <= i < |moved.leaves|
      ensures ReadRecord(block, moved.leaves[i]).Some?
    {
      assert plan.leaves[i] in plan.leaves;
    }
  }

  lemma PlansRead(src: Block, plan: Plan)
    requires Planned(src, plan)
    ensures forall t :: t in plan.tables ==> Entries(src, t).Some?
  {
  }

  lemma PlacesStay(src: Block, plan: Plan, block: Block)
    requires Mirrors(src, plan, block)
    ensures LeafPlaces(block, Moved(src, plan), Moved(src, plan).leaves) == LeafPlaces(src, plan, plan.leaves)
  {
    hide LeafAt, Mirrors;
    forall i | 0 <= i < |plan.leaves|
      ensures LeafAt(block, Moved(src, plan), Moved(src, plan).leaves[i]) == LeafAt(src, plan, plan.leaves[i])
    {
      LeafStays(src, plan, block, plan.leaves[i]);
    }
  }

  /** Laying out a block that is laid out gives the same block, and the same places of its records. */
  lemma LayoutIsStable(src: Block)
    requires LinkerLayout(src).Some? && |LinkerLayout(src).value.bytes| <= FLAG
    ensures LinkerLayout(Block(LinkerLayout(src).value.bytes, 0)) == LinkerLayout(src)
  {
    hide PlanOf, Planned, Mirrors, Writable, LayoutBytes, LeavesKnown, LeafPlaces, Moved;
    var plan := PlanOf(src).value;
    var block := Block(LayoutBytes(src, plan), 0);
    PlansAreMade(src);
    LayoutMirrors(src, plan);
    LeavesAreKnown(src, plan);
    PlanOfTheLayout(src, plan, block);
    StillWritable(src, plan, block);
    PlacesStay(src, plan, block);
    BytesStay(src, plan, block);
  }

  // ----- walking the block

  lemma {:induction false} TotalStaysBounded(src: Block, found: seq<nat>, next: nat)
    requires next <= |found| && Distinct(found) && Tables(src, found, next).Some? && Total(src, found) <= MAX_ENTRIES
    ensures Total(src, Tables(src, found, next).value) <= MAX_ENTRIES
    decreases Unseen(found), |found| - next
  {
    hide Entries, WithChildren, Children, Total;
    if next < |found| {
      var children := Children(Entries(src, found[next]).value);
      WithChildrenAdds(src, found, children);
      ChildrenAreNew(src, found, children);
      FewerUnseen(src, found, next);
      TotalStaysBounded(src, found + children, next + 1);
    }
  }

  lemma {:induction false} EntriesFitTheBytes(bytes: seq<byte>, at: nat, count: nat)
    requires ReadEntries(bytes, at, count).Some? && count > 0
    ensures at + ENTRY_SIZE * count <= |bytes|
    decreases count
  {
    if count > 1 {
      EntriesFitTheBytes(bytes, at + ENTRY_SIZE, count - 1);
    }
  }

  /** What can be read lies inside the bytes. */
  lemma ReadableIsInside(bytes: seq<byte>, table: nat, entry: Entry)
    ensures var block := Block(bytes, 0);
      && (Entries(block, table).Some? ==> TableEnd(block, table) <= |bytes|)
      && (ReadString(block, entry.name).Some? ==>
            StringEnd(block, entry.name) == Some(Unmarked(entry.name) + |ReadString(block, entry.name).value|)
            && StringEnd(block, entry.name).value <= |bytes|)
      && (ReadRecord(block, entry.target).Some? ==> entry.target + RECORD_SIZE <= |bytes|)
  {
    hide U16At;
    var block := Block(bytes, 0);
    if Entries(block, table).Some? && Entries(block, table).value != [] {
      EntriesFitTheBytes(bytes, table + TABLE_SIZE, |Entries(block, table).value|);
    }
  }

  lemma BlockIsInside(block: Block, plan: Plan)
    requires Planned(block, plan) && LeavesKnown(block, plan) && block.start == 0
    requires forall leaf :: leaf in plan.leaves ==> ReadRecord(block, leaf).Some?
    ensures Within(block, plan.tables, |block.bytes|) && NamesRead(block, plan.tables)
  {
    hide Entries, ReadString, ReadRecord, Planned, TableEnd, StringEnd;
    assert block == Block(block.bytes, 0);
    forall t | t in plan.tables && Entries(block, t).Some?
      ensures TableEnd(block, t) <= |block.bytes| && EntriesWithin(block, Entries(block, t).value, |block.bytes|)
      ensures forall e :: e in Entries(block, t).value && Marked(e.name) ==> StringEnd(block, e.name).Some?
    {
      TablesAreKnown(block, plan, t);
      ReadableIsInside(block.bytes, t, Entry(0, 0));
      forall e | e in Entries(block, t).value
        ensures !Marked(e.target) ==> e.target + RECORD_SIZE <= |block.bytes|
        ensures Marked(e.name) ==> StringEnd(block, e.name).Some? && StringEnd(block, e.name).value <= |block.bytes|
      {
        ReadableIsInside(block.bytes, t, e);
      }
    }
  }

  lemma SameMembers(a: seq<nat>, b: seq<nat>)
    requires multiset(a) == multiset(b)
    ensures forall t :: t in a <==> t in b
  {
    forall t
      ensures t in a <==> t in b
    {
      assert t in multiset(a) <==> t in multiset(b);
    }
  }

  lemma WithinSame(block: Block, a: seq<nat>, b: seq<nat>, limit: nat)
    requires multiset(a) == multiset(b)
    ensures Within(block, a, limit) == Within(block, b, limit) && NamesRead(block, a) == NamesRead(block, b)
  {
    hide Entries, TableEnd, EntriesWithin, StringEnd;
    SameMembers(a, b);
  }

  /** A name among the tables' names is some entry's. */
  lemma {:induction false} NamesFrom(src: Block, tables: seq<nat>)
    ensures forall name :: name in Names(src, tables) ==>
      exists t, e :: t in tables && Entries(src, t).Some? && e in Entries(src, t).value && e.name == name
  {
    hide Entries;
    if tables != [] {
      var front, last := tables[..|tables| - 1], tables[|tables| - 1];
      NamesFrom(src, front);
      assert tables == front + [last];
      if Entries(src, last).Some? {
        MarkedNamesFrom(Entries(src, last).value);
      }
    }
  }

  lemma {:induction false} MarkedNamesFrom(entries: seq<Entry>)
    ensures forall name :: name in MarkedNames(entries) ==> Marked(name) && exists e :: e in entries && e.name == name
  {
    if entries != [] {
      MarkedNamesFrom(entries[1..]);
      assert entries == [entries[0]] + entries[1..];
    }
  }

  /** The last text, record or table of the block ends it. */
  lemma LastTextEnds(src: Block, plan: Plan, block: Block, length: nat)
    requires Planned(src, plan) && Writable(src, plan) && |LayoutBytes(src, plan)| <= FLAG && plan.strings != []
    requires block == Block(LayoutBytes(src, plan), 0) && Within(block, TablePlaces(src, plan, plan.tables), length)
    ensures length >= |block.bytes|
  {
    hide Entries, ReadString, LayoutBytes, Mirrors, Names, Concat, Tables, Leaves, Strings, TableAt, TablesSize, Writable, Counted;
    LayoutMirrors(src, plan);
    var n := |plan.strings|;
    var text := plan.strings[n - 1];
    StringsAreCounted(src, Names(src, plan.tables));
    var name :| name in Names(src, plan.tables) && ReadString(src, name) == Some(text);
    NamesAreMarked(src, plan.tables);
    SameNames(src, plan, block, plan.tables);
    var at := NewName(src, plan, name);
    NewNameIsNamed(src, plan, Names(src, plan.tables), name);
    NamesFrom(block, TablePlaces(src, plan, plan.tables));
    var t, e :| t in TablePlaces(src, plan, plan.tables) && Entries(block, t).Some? && e in Entries(block, t).value && e.name == at;
    SameText(src, plan, block, name);
    ReadableIsInside(block.bytes, t, e);
    assert StringEnd(block, e.name).value <= length;
    LayoutSize(src, plan);
    assert First(plan.strings, text) == n - 1;
    assert Concat(plan.strings) == Concat(plan.strings[..n - 1]) + text by { LastPart(plan.strings); }
    TextPlace(src, plan, text);
  }

  lemma LastPart(parts: seq<seq<byte>>)
    requires parts != []
    ensures Concat(parts) == Concat(parts[..|parts| - 1]) + parts[|parts| - 1]
  {
  }

  lemma NewNameIsNamed(src: Block, plan: Plan, names: seq<nat>, name: nat)
    requires name in names
    ensures NewName(src, plan, name) in NewNames(src, plan, names)
  {
    hide NewName;
    var i :| 0 <= i < |names| && names[i] == name;
    assert NewNames(src, plan, names)[i] == NewName(src, plan, name);
  }

  lemma TextPlace(src: Block, plan: Plan, text: seq<byte>)
    requires Planned(src, plan) && text in plan.strings && |LayoutBytes(src, plan)| <= FLAG
    ensures StringAt(src, plan, text) < FLAG && Unmarked(Mark(StringAt(src, plan, text))) == StringAt(src, plan, text)
  {
    hide LayoutBytes, Entries, Tables, Leaves, Strings, Names, StringAt;
    PlacesInside(src, plan, 0, 0, text);
  }

  lemma LastLeafEnds(src: Block, plan: Plan)
    requires Planned(src, plan) && plan.strings == [] && plan.leaves != []
    ensures var last := plan.leaves[|plan.leaves| - 1];
      LeafAt(src, plan, last) + RECORD_SIZE == |LayoutBytes(src, plan)|
  {
    hide Entries, Tables, Leaves, Strings, Names, Closed, LayoutBytes, TablesSize;
    LayoutSize(src, plan);
  }

  lemma LastTableEnds(src: Block, plan: Plan, block: Block)
    requires Planned(src, plan) && Mirrors(src, plan, block) && plan.strings == [] && plan.leaves == []
    ensures var last := plan.tables[|plan.tables| - 1];
      last in plan.tables && TableEnd(block, TableAt(src, plan, last)) == |LayoutBytes(src, plan)|
  {
    hide Entries, Tables, Leaves, Strings, Names, Closed, LayoutBytes, Mirrors, EntryCount;
    var n := |plan.tables|;
    LayoutSize(src, plan);
    assert First(plan.tables, plan.tables[n - 1]) == n - 1;
    SameCount(src, plan, block, plan.tables[n - 1]);
  }

  /** A walk visits as many entries as it spends. */
  lemma {:induction false} WalkSpends(src: Block, entries: seq<Entry>, depth: nat, tree: Tree)
    requires depth < MAX_DEPTH && WalkEntries(src, entries, depth, tree).Some?
    ensures WalkEntries(src, entries, depth, tree).value.budget + |entries| <= tree.budget
    decreases MAX_DEPTH - depth - 1, 1, |entries|
  {
    hide Entries, WalkTable, StringEnd;
    if entries != [] {
      var e := entries[0];
      if Marked(e.target) {
        var nameEnd := if Marked(e.name) then StringEnd(src, e.name).value else 0;
        TableSpends(src, Unmarked(e.target), depth + 1, Tree(Max(tree.length, nameEnd), tree.leaves, tree.budget - 1));
      }
      WalkSpends(src, entries[1..], depth, WalkEntry(src, e, depth, tree).value);
    }
  }

  lemma {:induction false} TableSpends(src: Block, table: nat, depth: nat, tree: Tree)
    requires WalkTable(src, table, depth, tree).Some?
    ensures WalkTable(src, table, depth, tree).value.budget + EntryCount(src, table) <= tree.budget
    decreases MAX_DEPTH - depth, 0, 0
  {
    hide Entries, WalkEntries, StringEnd;
    WalkSpends(src, Entries(src, table).value, depth, tree.(length := Max(tree.length, TableEnd(src, table))));
  }

  lemma WalkCovers(src: Block, plan: Plan, block: Block, walked: Tree)
    requires Planned(src, plan) && Writable(src, plan) && |LayoutBytes(src, plan)| <= FLAG
    requires block == Block(LayoutBytes(src, plan), 0) && Within(block, TablePlaces(src, plan, plan.tables), walked.length)
    requires forall leaf :: leaf in LeafPlaces(src, plan, plan.leaves) ==> leaf + RECORD_SIZE <= walked.length
    ensures walked.length >= |block.bytes|
  {
    hide Entries, LayoutBytes, Mirrors, Tables, Leaves, Strings, Names, Closed, TableAt, LeafAt, Writable, TableEnd, EntriesWithin,
      Counted;
    LayoutMirrors(src, plan);
    if plan.strings != [] {
      LastTextEnds(src, plan, block, walked.length);
    } else if plan.leaves != [] {
      LastLeafEnds(src, plan);
      assert LeafPlaces(src, plan, plan.leaves)[|plan.leaves| - 1] in LeafPlaces(src, plan, plan.leaves);
    } else {
      LastTableEnds(src, plan, block);
      var n := |plan.tables|;
      assert TablePlaces(src, plan, plan.tables)[n - 1] in TablePlaces(src, plan, plan.tables);
      assert Entries(block, TableAt(src, plan, plan.tables[n - 1])).Some? by { MirroredTable(src, plan, block, plan.tables[n - 1]); }
    }
  }

  lemma MirroredTable(src: Block, plan: Plan, block: Block, table: nat)
    requires Mirrors(src, plan, block) && table in plan.tables
    ensures Entries(block, TableAt(src, plan, table)).Some?
  {
  }

  lemma BlockIsSound(src: Block, plan: Plan, block: Block)
    requires Planned(src, plan) && Writable(src, plan) && |LayoutBytes(src, plan)| <= FLAG
    requires block == Block(LayoutBytes(src, plan), 0)
    ensures Planned(block, Moved(src, plan)) && LeavesKnown(block, Moved(src, plan))
    ensures forall leaf :: leaf in Moved(src, plan).leaves ==> ReadRecord(block, leaf).Some?
    ensures Total(block, Moved(src, plan).tables) == Total(src, plan.tables)
  {
    hide LayoutBytes, Mirrors, Moved, Planned, Writable, LeavesKnown, PlanOf;
    LayoutMirrors(src, plan);
    LeavesAreKnown(src, plan);
    PlanOfTheLayout(src, plan, block);
    PlansAreMade(block);
    LeavesAreKnown(block, Moved(src, plan));
    StillWritable(src, plan, block);
    MovedRecords(block, Moved(src, plan));
    MovedTotal(src, plan, block);
  }

  lemma MovedRecords(block: Block, plan: Plan)
    requires Writable(block, plan)
    ensures forall leaf :: leaf in plan.leaves ==> ReadRecord(block, leaf).Some?
  {
  }

  lemma MovedTotal(src: Block, plan: Plan, block: Block)
    requires Mirrors(src, plan, block)
    ensures Total(block, Moved(src, plan).tables) == Total(src, plan.tables)
  {
    hide Mirrors, Total, TablesSize, LeafPlaces;
    SameSizes(src, plan, block, plan.tables);
  }

  /** A walk over the block finds all of it, and its records where the layout says. */
  lemma WalkOfTheLayout(src: Block)
    requires LinkerLayout(src).Some? && |LinkerLayout(src).value.bytes| <= FLAG
    ensures var layout, walked := LinkerLayout(src).value, WalkResources(Block(LinkerLayout(src).value.bytes, 0));
      && (walked.Some? <==> EntryCount(src, 0) <= MAX_ENTRIES)
      && (walked.Some? ==> walked.value.length == |layout.bytes| && walked.value.leaves == layout.leaves)
  {
    hide PlanOf, Planned, Writable, LayoutBytes, LeavesKnown, LeafPlaces, TablePlaces, Preorder, Leaves, Total, EntryCount, WalkTable,
      Within, NamesRead;
    var plan := PlanOf(src).value;
    var block := Block(LayoutBytes(src, plan), 0);
    var moved := Moved(src, plan);
    PlansAreMade(src);
    BlockIsSound(src, plan, block);
    BlockIsInside(block, moved);
    TablesArePreorder(block, moved);
    WithinSame(block, moved.tables, Preorder(block, 0, 0), |block.bytes|);
    TotalOfSame(block, moved.tables, Preorder(block, 0, 0));
    RootComesFirst(block, moved);
    RootCount(src, plan, block);
    if EntryCount(src, 0) <= MAX_ENTRIES {
      TotalFromTheRoot(src, plan);
      TableWalk(block, 0, 0, Tree(0, [], MAX_ENTRIES), |block.bytes|);
      var walked := WalkResources(block).value;
      WithinSame(block, moved.tables, Preorder(block, 0, 0), walked.length);
      WalkCovers(src, plan, block, walked);
    } else if WalkResources(block).Some? {
      TableSpends(block, 0, 0, Tree(0, [], MAX_ENTRIES));
    }
  }

  lemma RootCount(src: Block, plan: Plan, block: Block)
    requires Planned(src, plan) && Writable(src, plan) && |LayoutBytes(src, plan)| <= FLAG
    requires block == Block(LayoutBytes(src, plan), 0)
    ensures EntryCount(block, 0) == EntryCount(src, 0)
  {
    hide LayoutBytes, Mirrors, Planned, Writable, EntryCount, TableAt;
    LayoutMirrors(src, plan);
    RootComesFirst(src, plan);
    SameCount(src, plan, block, 0);
  }

  lemma TotalFromTheRoot(src: Block, plan: Plan)
    requires Planned(src, plan) && EntryCount(src, 0) <= MAX_ENTRIES
    ensures Total(src, plan.tables) <= MAX_ENTRIES
  {
    hide Entries, Tables, Leaves, Strings, Names, Closed, EntryCount;
    TotalOfOne(src, 0);
    TotalStaysBounded(src, [0], 0);
  }
}
