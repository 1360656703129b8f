/** Walking a resource tree and laying it out, step by step, as the walk and the layout specify. */
module ResourceBuilder {
  import opened Wrappers
  import opened Buffers
  import opened Bytes
  import opened Resources
  import opened ResourceLayout
  import opened ResourceWalk

  /** What a walk has found, and how many entries it may still visit. */
  class Walker {
    var length: nat
    var leaves: seq<nat>
    var paths: seq<Path>
    var budget: nat

    function Found(): Tree
      reads this
    {
      Tree(length, leaves, budget)
    }

    constructor ()
      ensures Found() == Tree(0, [], MAX_ENTRIES) && paths == []
    {
      length, leaves, paths, budget := 0, [], [], MAX_ENTRIES;
    }

    method VisitTable(src: Block, table: nat, depth: nat, path: Path) returns (ok: bool)
      modifies this
      ensures ok <==> WalkTable(src, table, depth, old(Found())).Some?
      ensures ok ==> Found() == WalkTable(src, table, depth, old(Found())).value
      ensures ok ==> paths == old(paths) + Paths(src, table, depth, path)
      decreases MAX_DEPTH - depth
    {
      hide ReadU32, WalkEntry, PathsTo;
      if depth >= MAX_DEPTH || |leaves| >= MAX_ENTRIES {
        return false;
      }
      var named := ReadU16(src.bytes, src.start + table + NAMED_COUNT_OFFSET);
      var numbered := ReadU16(src.bytes, src.start + table + ID_COUNT_OFFSET);
      if named.None? || numbered.None? {
        return false;
      }
      var count := named.value + numbered.value;
      length := Max(length, table + TABLE_SIZE + ENTRY_SIZE * count);
      var at := src.start + table + TABLE_SIZE;
      ghost var all := ReadEntries(src.bytes, at, count);
      ghost var started := Found();
      assert Entries(src, table) == all;
      ghost var rest := all;
      for i := 0 to count
        invariant rest == ReadEntries(src.bytes, at + ENTRY_SIZE * i, count - i) && (rest.Some? <==> all.Some?)
        invariant rest.Some? ==> WalkEntries(src, all.value, depth, started) == WalkEntries(src, rest.value, depth, Found())
        invariant rest.Some? ==>
          paths + PathsBelow(src, rest.value, depth, path) == old(paths) + PathsBelow(src, all.value, depth, path)
      {
        var name := ReadU32(src.bytes, at + ENTRY_SIZE * i);
        var target := ReadU32(src.bytes, at + ENTRY_SIZE * i + TARGET_OFFSET);
        if name.None? || target.None? {
          return false;
        }
        ghost var before := Found();
        ghost var pathsBefore := paths;
        var stepped := VisitEntry(src, Entry(name.value, target.value), depth, path);
        if !stepped {
          return false;
        }
        if rest.Some? {
          MorePaths(src, rest.value, depth, path, pathsBefore);
        }
        rest := ReadEntries(src.bytes, at + ENTRY_SIZE * (i + 1), count - (i + 1));
      }
      return true;
    }

    method VisitEntry(src: Block, entry: Entry, depth: nat, path: Path) returns (ok: bool)
      requires depth < MAX_DEPTH
      modifies this
      ensures ok <==> WalkEntry(src, entry, depth, old(Found())).Some?
      ensures ok ==> Found() == WalkEntry(src, entry, depth, old(Found())).value
      ensures ok ==> paths == old(paths) + PathsTo(src, entry, depth, path)
      decreases MAX_DEPTH - depth, 0
    {
      if budget == 0 {
        return false;
      }
      budget := budget - 1;
      if Marked(entry.name) {
        var end := StringEnd(src, entry.name);
        if end.None? {
          return false;
        }
        length := Max(length, end.value);
      }
      if Marked(entry.target) {
        ok := VisitTable(src, Unmarked(entry.target), depth + 1, Deeper(path, depth, entry.name));
      } else {
        length := Max(length, entry.target + RECORD_SIZE);
        leaves := leaves + [entry.target];
        paths := paths + [path];
        ok := true;
      }
    }
  }

  lemma MorePaths(src: Block, entries: seq<Entry>, depth: nat, path: Path, before: seq<Path>)
    requires depth < MAX_DEPTH && entries != []
    ensures before + PathsBelow(src, entries, depth, path)
         == before + PathsTo(src, entries[0], depth, path) + PathsBelow(src, entries[1..], depth, path)
  {
    hide PathsTo;
  }

  method Walk(src: Block) returns (r: Option<Tree>, paths: seq<Path>)
    ensures r == WalkResources(src)
    ensures r.Some? ==> paths == Paths(src, 0, 0, ROOT_PATH)
  {
    hide WalkTable, Paths;
    var walker := new Walker();
    var ok := walker.VisitTable(src, 0, 0, ROOT_PATH);
    paths := walker.paths;
    r := if ok then Some(walker.Found()) else None;
  }

  // ----- tables, leaves and texts

  method FindTables(src: Block) returns (r: Option<seq<nat>>)
    ensures r == if Entries(src, 0).Some? then Tables(src, [0], 0) else None
  {
    hide Entries, Children, Unseen, Total;
    if Entries(src, 0).None? {
      return None;
    }
    var tables, seen, next := [0], {0}, 0;
    var total := EntryCount(src, 0);
    TotalOfOne(src, 0);
    while next < |tables|
      invariant next <= |tables| && Tables(src, tables, next) == Tables(src, [0], 0)
      invariant seen == (set t | t in tables) && total == Total(src, tables)
      invariant forall t :: t in tables ==> Entries(src, t).Some?
      decreases Unseen(tables), |tables| - next
    {
      ghost var before := tables;
      var children := Children(Entries(src, tables[next]).value);
      for k := 0 to |children|
        invariant tables == before + children[..k]
        invariant WithChildren(src, before, children) == WithChildren(src, tables, children[k..])
        invariant seen == (set t | t in tables) && total == Total(src, tables)
        invariant forall t :: t in tables ==> Entries(src, t).Some?
      {
        var child := children[k];
        if child in seen || Entries(src, child).None? {
          return None;
        }
        seen := seen + {child};
        OneMoreTable(src, tables, child);
        total := total + EntryCount(src, child);
        if total > MAX_ENTRIES {
          return None;
        }
        assert children[k..][1..] == children[k + 1..];
        tables := tables + [child];
      }
      assert children[..|children|] == children;
      FewerUnseen(src, before, next);
      next := next + 1;
    }
    return Some(tables);
  }

  lemma OneMoreTable(src: Block, tables: seq<nat>, table: nat)
    ensures Total(src, tables + [table]) == Total(src, tables) + EntryCount(src, table)
  {
    TotalOfBoth(src, tables, [table]);
    TotalOfOne(src, table);
  }

  method CollectLeaves(src: Block, table: nat, depth: nat, start: seq<nat>) returns (ok: bool, leaves: seq<nat>)
    ensures ok <==> Leaves(src, table, depth).Some?
    ensures ok ==> leaves == start + Leaves(src, table, depth).value
    decreases MAX_DEPTH - depth
  {
    hide Entries;
    leaves := start;
    if depth >= MAX_DEPTH || Entries(src, table).None? {
      return false, leaves;
    }
    var entries := Entries(src, table).value;
    for i := 0 to |entries|
      invariant LeavesBelow(src, entries[i..], depth).Some? <==> LeavesBelow(src, entries, depth).Some?
      invariant LeavesBelow(src, entries, depth).Some? ==>
                  start + LeavesBelow(src, entries, depth).value == leaves + LeavesBelow(src, entries[i..], depth).value
    {
      var target := entries[i].target;
      assert entries[i..][1..] == entries[i + 1..];
      ghost var before := leaves;
      if Marked(target) {
        ok, leaves := CollectLeaves(src, Unmarked(target), depth + 1, leaves);
        if !ok {
          return false, leaves;
        }
      } else {
        leaves := leaves + [target];
      }
      ghost var rest := LeavesBelow(src, entries[i + 1..], depth);
      if rest.Some? {
        ghost var first := if Marked(target) then Leaves(src, Unmarked(target), depth + 1).value else [target];
        assert before + (first + rest.value) == before + first + rest.value;
      }
    }
    assert entries[|entries|..] == [];
    return true, leaves;
  }

  lemma {:induction false} StringsOfPrefix(src: Block, names: seq<nat>, more: seq<nat>)
    requires Strings(src, names + more).Some?
    ensures Strings(src, names).Some?
    decreases |more|
  {
    if more == [] {
      assert names + more == names;
    } else {
      assert (names + more)[..|names + more| - 1] == names + more[..|more| - 1];
      StringsOfPrefix(src, names, more[..|more| - 1]);
    }
  }

  lemma {:induction false} MarkedNamesOfBoth(a: seq<Entry>, b: seq<Entry>)
    ensures MarkedNames(a + b) == MarkedNames(a) + MarkedNames(b)
    decreases |a|
  {
    if a == [] {
      assert a + b == b;
    } else {
      hide Marked;
      assert (a + b)[1..] == a[1..] + b && (a + b)[0] == a[0];
      MarkedNamesOfBoth(a[1..], b);
      var first, rest := if Marked(a[0].name) then [a[0].name] else [], MarkedNames(a[1..]);
      assert first + (rest + MarkedNames(b)) == first + rest + MarkedNames(b);
    }
  }

  /** The texts in order of first use, and where each one stands from `base` on. */
  method CollectStrings(src: Block, tables: seq<nat>, base: nat)
    returns (r: Option<seq<seq<byte>>>, offsets: map<seq<byte>, nat>, length: nat)
    requires forall t :: t in tables ==> Entries(src, t).Some?
    ensures r == Strings(src, Names(src, tables))
    ensures r.Some? ==> length == base + |Concat(r.value)|
    ensures r.Some? ==> forall text :: text in r.value ==>
      text in offsets && offsets[text] == base + |Concat(r.value[..First(r.value, text)])|
  {
    hide Entries, ReadString, MarkedNames, Concat, Strings, Names, Listed;
    var found: seq<seq<byte>> := [];
    length := base;
    offsets := map[];
    NoNames(src);
    NothingListed(base);
    for i := 0 to |tables|
      invariant Strings(src, Names(src, tables[..i])) == Some(found)
      invariant Listed(found, offsets, base, length)
    {
      var entries := Entries(src, tables[i]).value;
      ghost var names := Names(src, tables[..i]);
      assert tables[i] in tables;
      TablesNames(src, tables, i);
      NoMarkedNames(names);
      for k := 0 to |entries|
        invariant Strings(src, names + MarkedNames(entries[..k])) == Some(found)
        invariant Listed(found, offsets, base, length)
      {
        var name := entries[k].name;
        ghost var before := names + MarkedNames(entries[..k]);
        NextName(entries, k, names);
        assert before + [] == before;
        if Marked(name) {
          var text := ReadString(src, name);
          NextText(src, before, name);
          WhatIsListed(found, offsets, base, length);
          if text.None? {
            NothingCollected(src, tables, i, k);
            return None, offsets, length;
          }
          if text.value !in offsets {
            ListedOneMore(found, offsets, base, length, text.value);
            offsets := offsets[text.value := length];
            found := found + [text.value];
            length := length + |text.value|;
          }
        }
      }
      assert entries[..|entries|] == entries;
    }
    assert tables[..|tables|] == tables;
    WhatIsListed(found, offsets, base, length);
    return Some(found), offsets, length;
  }

  ghost predicate Listed(found: seq<seq<byte>>, offsets: map<seq<byte>, nat>, base: nat, length: nat) {
    && length == base + |Concat(found)| && (forall text :: text in offsets <==> text in found)
    && (forall text :: text in found ==> offsets[text] == base + |Concat(found[..First(found, text)])|)
  }

  lemma NothingListed(base: nat)
    ensures Listed([], map[], base, base)
  {
  }

  lemma WhatIsListed(found: seq<seq<byte>>, offsets: map<seq<byte>, nat>, base: nat, length: nat)
    requires Listed(found, offsets, base, length)
    ensures length == base + |Concat(found)|
    ensures forall text :: text in offsets <==> text in found
    ensures forall text :: text in found ==> offsets[text] == base + |Concat(found[..First(found, text)])|
  {
    hide Concat;
  }

  lemma ListedOneMore(found: seq<seq<byte>>, offsets: map<seq<byte>, nat>, base: nat, length: nat, text: seq<byte>)
    requires Listed(found, offsets, base, length) && text !in offsets
    ensures Listed(found + [text], offsets[text := length], base, length + |text|)
  {
    var more := found + [text];
    assert more[..|more| - 1] == found;
    assert |Concat(more)| == |Concat(found)| + |text|;
    hide Concat;
    FirstOfNew(found, text);
    forall other | other in found
      ensures offsets[text := length][other] == base + |Concat(more[..First(more, other)])|
    {
      FirstOfMore(found, text, other);
      assert more[..First(more, other)] == found[..First(found, other)];
    }
  }

  lemma FirstOfNew(found: seq<seq<byte>>, text: seq<byte>)
    requires text !in found
    ensures First(found + [text], text) == |found| && (found + [text])[..|found|] == found
  {
  }

  lemma {:induction false} FirstOfMore(found: seq<seq<byte>>, text: seq<byte>, other: seq<byte>)
    requires other in found
    ensures First(found + [text], other) == First(found, other)
  {
    if found[0] != other {
      assert (found + [text])[1..] == found[1..] + [text];
      FirstOfMore(found[1..], text, other);
    }
  }

  lemma NoNames(src: Block)
    ensures Strings(src, Names(src, [])) == Some([]) && Concat([]) == []
  {
  }

  lemma NoMarkedNames(names: seq<nat>)
    ensures names + MarkedNames([]) == names
  {
  }

  lemma TablesNames(src: Block, tables: seq<nat>, i: nat)
    requires i < |tables| && Entries(src, tables[i]).Some?
    ensures Names(src, tables[..i + 1]) == Names(src, tables[..i]) + MarkedNames(Entries(src, tables[i]).value)
  {
    assert tables[..i + 1][..i] == tables[..i];
  }

  lemma NextName(entries: seq<Entry>, k: nat, names: seq<nat>)
    requires k < |entries|
    ensures names + MarkedNames(entries[..k + 1])
         == names + MarkedNames(entries[..k]) + (if Marked(entries[k].name) then [entries[k].name] else [])
  {
    assert entries[..k + 1] == entries[..k] + [entries[k]];
    MarkedNamesOfBoth(entries[..k], [entries[k]]);
    assert MarkedNames([entries[k]][1..]) == [];
  }

  lemma NextText(src: Block, names: seq<nat>, name: nat)
    requires Strings(src, names).Some?
    ensures Strings(src, names + [name])
         == match ReadString(src, name)
            case None => None
            case Some(text) =>
              if text in Strings(src, names).value then Strings(src, names) else Some(Strings(src, names).value + [text])
  {
    hide ReadString;
    assert (names + [name])[..|names|] == names;
  }

  lemma {:induction false} NamesOfPrefix(src: Block, tables: seq<nat>, i: nat) returns (more: seq<nat>)
    requires i <= |tables|
    ensures Names(src, tables) == Names(src, tables[..i]) + more
    decreases |tables| - i
  {
    hide Entries;
    if i == |tables| {
      assert tables[..i] == tables;
      more := [];
    } else {
      more := NamesOfPrefix(src, tables, i + 1);
      assert tables[..i + 1][..i] == tables[..i];
      more := (if Entries(src, tables[i]).Some? then MarkedNames(Entries(src, tables[i]).value) else []) + more;
    }
  }

  lemma NothingCollected(src: Block, tables: seq<nat>, i: nat, k: nat)
    requires i < |tables| && Entries(src, tables[i]).Some? && k < |Entries(src, tables[i]).value|
    requires var name := Entries(src, tables[i]).value[k].name; Marked(name) && ReadString(src, name).None?
    ensures Strings(src, Names(src, tables)).None?
  {
    hide Entries, ReadString, Names, MarkedNames;
    var entries := Entries(src, tables[i]).value;
    var before := Names(src, tables[..i]) + MarkedNames(entries[..k]);
    if Strings(src, Names(src, tables)).Some? {
      NamesContinue(src, tables, i, k);
      var more :| before + [entries[k].name] + more == Names(src, tables);
      StringsOfPrefix(src, before + [entries[k].name], more);
    }
  }

  lemma NamesContinue(src: Block, tables: seq<nat>, i: nat, k: nat)
    requires i < |tables| && Entries(src, tables[i]).Some? && k < |Entries(src, tables[i]).value|
    requires Marked(Entries(src, tables[i]).value[k].name)
    ensures var entries := Entries(src, tables[i]).value;
      exists more :: Names(src, tables[..i]) + MarkedNames(entries[..k]) + [entries[k].name] + more == Names(src, tables)
  {
    hide Entries;
    var entries := Entries(src, tables[i]).value;
    var after := NamesOfPrefix(src, tables, i + 1);
    TablesNames(src, tables, i);
    assert entries == entries[..k + 1] + entries[k + 1..];
    MarkedNamesOfBoth(entries[..k + 1], entries[k + 1..]);
    NextName(entries, k, []);
    assert [] + MarkedNames(entries[..k + 1]) == MarkedNames(entries[..k + 1]);
    assert [] + MarkedNames(entries[..k]) + [entries[k].name] == MarkedNames(entries[..k]) + [entries[k].name];
    var front := Names(src, tables[..i]);
    var more := MarkedNames(entries[k + 1..]) + after;
    assert front + MarkedNames(entries[..k]) + [entries[k].name] + more == Names(src, tables);
  }

  // ----- places

  method PlaceTables(src: Block, tables: seq<nat>) returns (offsets: map<nat, nat>, length: nat)
    requires Distinct(tables)
    ensures length == TablesSize(src, tables)
    ensures forall t :: t in tables ==> t in offsets && offsets[t] == TablesSize(src, tables[..First(tables, t)])
  {
    hide EntryCount;
    offsets, length := map[], 0;
    for i := 0 to |tables|
      invariant length == TablesSize(src, tables[..i])
      invariant forall j :: 0 <= j < i ==> tables[j] in offsets && offsets[tables[j]] == TablesSize(src, tables[..j])
    {
      offsets := offsets[tables[i] := length];
      length := length + TABLE_SIZE + ENTRY_SIZE * EntryCount(src, tables[i]);
      assert tables[..i + 1][..i] == tables[..i];
    }
    assert tables[..|tables|] == tables;
  }

  method PlaceLeaves(leaves: seq<nat>, base: nat) returns (offsets: map<nat, nat>, length: nat)
    ensures length == base + RECORD_SIZE * |leaves|
    ensures forall leaf :: leaf in leaves ==> leaf in offsets && offsets[leaf] == base + RECORD_SIZE * Last(leaves, leaf)
  {
    offsets, length := map[], base;
    for i := 0 to |leaves|
      invariant length == base + RECORD_SIZE * i
      invariant forall leaf :: leaf in leaves[..i] ==>
                  leaf in offsets && offsets[leaf] == base + RECORD_SIZE * Last(leaves[..i], leaf)
    {
      assert leaves[..i + 1] == leaves[..i] + [leaves[i]];
      LastOfMore(leaves[..i], leaves[i]);
      offsets := offsets[leaves[i] := length];
      length := length + RECORD_SIZE;
    }
    assert leaves[..|leaves|] == leaves;
  }

  lemma LastOfMore(s: seq<nat>, x: nat)
    ensures forall y :: Last(s + [x], y) == if y == x then |s| else Last(s, y)
  {
    assert (s + [x])[..|s|] == s;
  }

  /** The places that were given out are the plan's. */
  ghost predicate Placed(
      src: Block, plan: Plan, tableAt: map<nat, nat>, leafAt: map<nat, nat>, textAt: map<seq<byte>, nat>)
  {
    && (forall t :: t in plan.tables ==> t in tableAt && tableAt[t] == TableAt(src, plan, t))
    && (forall leaf :: leaf in plan.leaves ==> leaf in leafAt && leafAt[leaf] == LeafAt(src, plan, leaf))
    && (forall text :: text in plan.strings ==> text in textAt && textAt[text] == StringAt(src, plan, text))
  }

  // ----- writing tables

  lemma PutTwice(buffer: seq<byte>, at: nat, first: seq<byte>, second: seq<byte>)
    requires at + |first| + |second| <= |buffer|
    ensures Put(Put(buffer, at, first), at + |first|, second) == Put(buffer, at, first + second)
  {
  }

  lemma {:induction false} OneMoreEntry(entries: seq<Entry>, entry: Entry)
    ensures EntriesBytes(entries + [entry]) == EntriesBytes(entries) + (U32Bytes(entry.name) + U32Bytes(entry.target))
  {
    hide U32Bytes;
    if entries == [] {
      assert (entries + [entry])[1..] == [];
    } else {
      assert (entries + [entry])[1..] == entries[1..] + [entry];
      OneMoreEntry(entries[1..], entry);
      var first := U32Bytes(entries[0].name) + U32Bytes(entries[0].target);
      var last := U32Bytes(entry.name) + U32Bytes(entry.target);
      Grouping(first, EntriesBytes(entries[1..]), last);
    }
  }

  method WriteEntry(
      buffer: array<byte>, at: nat, src: Block, ghost plan: Plan, entry: Entry,
      tableAt: map<nat, nat>, leafAt: map<nat, nat>, textAt: map<seq<byte>, nat>) returns (ok: bool)
    requires Placed(src, plan, tableAt, leafAt, textAt) && Known(src, plan, [entry])
    requires !Marked(entry.target) ==> entry.target in plan.leaves
    requires at + ENTRY_SIZE <= buffer.Length
    modifies buffer
    ensures ok <==> EntryFits(src, plan, entry)
    ensures ok ==> var e := NewEntry(src, plan, entry);
      buffer[..] == Put(old(buffer[..]), at, U32Bytes(e.name) + U32Bytes(e.target))
  {
    hide ReadString, TableAt, LeafAt, StringAt, U32Bytes;
    assert entry in [entry];
    var name := entry.name;
    if Marked(name) {
      var place := textAt[ReadString(src, name).value];
      if place >= U32 {
        return false;
      }
      name := Mark(place);
    }
    var place := if Marked(entry.target) then tableAt[Unmarked(entry.target)] else leafAt[entry.target];
    if place >= U32 {
      return false;
    }
    var target := if Marked(entry.target) then Mark(place) else place;
    PutTwice(buffer[..], at, U32Bytes(name), U32Bytes(target));
    CopyInto(buffer, at, U32Bytes(name));
    CopyInto(buffer, at + TARGET_OFFSET, U32Bytes(target));
    return true;
  }

  method WriteTable(
      buffer: array<byte>, at: nat, src: Block, ghost plan: Plan, table: nat,
      tableAt: map<nat, nat>, leafAt: map<nat, nat>, textAt: map<seq<byte>, nat>) returns (ok: bool)
    requires Entries(src, table).Some? && ReadRecord(src, table).Some?
    requires Placed(src, plan, tableAt, leafAt, textAt) && Known(src, plan, Entries(src, table).value)
    requires forall e :: e in Entries(src, table).value && !Marked(e.target) ==> e.target in plan.leaves
    requires at + |TableBytes(src, plan, table)| <= buffer.Length
    requires |TableBytes(src, plan, table)| == TABLE_SIZE + ENTRY_SIZE * |Entries(src, table).value|
    modifies buffer
    ensures ok <==> EntriesFit(src, plan, Entries(src, table).value)
    ensures ok ==> buffer[..] == Put(old(buffer[..]), at, TableBytes(src, plan, table))
  {
    hide Entries, ReadString, NewEntry, NewEntries, EntriesBytes, Placed, EntryFits, U32Bytes, Put;
    var header, entries := ReadRecord(src, table).value, Entries(src, table).value;
    ghost var before := buffer[..];
    CopyInto(buffer, at, header);
    NothingNew(src, plan, header);
    for k := 0 to |entries|
      invariant |EntriesBytes(NewEntries(src, plan, entries[..k]))| == ENTRY_SIZE * k
      invariant buffer[..] == Put(before, at, header + EntriesBytes(NewEntries(src, plan, entries[..k])))
      invariant EntriesFit(src, plan, entries[..k])
    {
      var entry := entries[k];
      ghost var done := header + EntriesBytes(NewEntries(src, plan, entries[..k]));
      assert entry in entries && entries[..k + 1] == entries[..k] + [entry];
      OneMoreNew(src, plan, entries[..k], entry);
      ghost var e := NewEntry(src, plan, entry);
      ghost var bytes := U32Bytes(e.name) + U32Bytes(e.target);
      PutTwice(before, at, done, bytes);
      var written := WriteEntry(buffer, at + TABLE_SIZE + ENTRY_SIZE * k, src, plan, entry, tableAt, leafAt, textAt);
      if !written {
        return false;
      }
      Grouping(header, EntriesBytes(NewEntries(src, plan, entries[..k])), bytes);
    }
    assert entries[..|entries|] == entries;
    return true;
  }

  lemma NothingNew(src: Block, plan: Plan, header: seq<byte>)
    ensures EntriesBytes(NewEntries(src, plan, [])) == [] && header + [] == header
  {
  }

  lemma OneMoreNew(src: Block, plan: Plan, entries: seq<Entry>, entry: Entry)
    ensures var e := NewEntry(src, plan, entry);
      EntriesBytes(NewEntries(src, plan, entries + [entry]))
      == EntriesBytes(NewEntries(src, plan, entries)) + (U32Bytes(e.name) + U32Bytes(e.target))
    ensures |U32Bytes(NewEntry(src, plan, entry).name) + U32Bytes(NewEntry(src, plan, entry).target)| == ENTRY_SIZE
  {
    hide EntriesBytes, NewEntry;
    NewEntriesAre(src, plan, entries);
    NewEntriesAre(src, plan, entries + [entry]);
    assert NewEntries(src, plan, entries + [entry]) == NewEntries(src, plan, entries) + [NewEntry(src, plan, entry)];
    OneMoreEntry(NewEntries(src, plan, entries), NewEntry(src, plan, entry));
  }

  method WriteTables(
      buffer: array<byte>, src: Block, ghost plan: Plan, tables: seq<nat>,
      tableAt: map<nat, nat>, leafAt: map<nat, nat>, textAt: map<seq<byte>, nat>) returns (ok: bool)
    requires Planned(src, plan) && LeavesKnown(src, plan) && Placed(src, plan, tableAt, leafAt, textAt) && tables == plan.tables
    requires TablesSize(src, tables) <= buffer.Length && buffer[..] == Zeros(buffer.Length)
    modifies buffer
    ensures ok <==> forall t :: t in tables && Entries(src, t).Some? ==> EntriesFit(src, plan, Entries(src, t).value)
    ensures ok ==> buffer[..] == TablesBytes(src, plan, |tables|) + Zeros(buffer.Length - TablesSize(src, tables))
    ensures |TablesBytes(src, plan, |tables|)| == TablesSize(src, tables)
  {
    hide Entries, Placed, Planned, LeavesKnown, EntriesFit, TableBytes, TablesSize, TablesBytes, Zeros, Put, FitSoFar;
    PlanReads(src, plan);
    NoTables(src, plan);
    LayoutSize(src, plan);
    for i := 0 to |tables|
      invariant 0 <= TablesSize(src, tables[..i]) <= buffer.Length
      invariant buffer[..] == TablesBytes(src, plan, i) + Zeros(buffer.Length - TablesSize(src, tables[..i]))
      invariant FitSoFar(src, plan, i)
    {
      var table := tables[i];
      ghost var bytes := TableBytes(src, plan, table);
      TablesAreKnown(src, plan, table);
      NextTable(src, plan, i, buffer.Length);
      TargetsKnown(src, plan, table);
      TableFits(src, plan, table);
      PlaceGiven(src, plan, tableAt, leafAt, textAt, i);
      ghost var rest := buffer.Length - TablesSize(src, tables[..i]) - |bytes|;
      PutOver(TablesBytes(src, plan, i), Zeros(|bytes|), Zeros(rest), bytes);
      ZerosInParts(|bytes|, rest, TablesBytes(src, plan, i));
      FitOneMore(src, plan, i);
      var written := WriteTable(buffer, tableAt[table], src, plan, table, tableAt, leafAt, textAt);
      if !written {
        return false;
      }
    }
    assert tables[..|tables|] == tables;
    AllFit(src, plan);
    return true;
  }

  ghost predicate FitSoFar(src: Block, plan: Plan, count: nat)
    requires count <= |plan.tables|
  {
    forall i :: 0 <= i < count && Entries(src, plan.tables[i]).Some? ==> EntriesFit(src, plan, Entries(src, plan.tables[i]).value)
  }

  lemma FitOneMore(src: Block, plan: Plan, count: nat)
    requires count < |plan.tables| && Entries(src, plan.tables[count]).Some?
    ensures var fits := EntriesFit(src, plan, Entries(src, plan.tables[count]).value);
      FitSoFar(src, plan, count + 1) == (FitSoFar(src, plan, count) && fits)
    ensures plan.tables[count] in plan.tables
  {
    hide Entries, EntriesFit;
  }

  lemma AllFit(src: Block, plan: Plan)
    requires FitSoFar(src, plan, |plan.tables|)
    ensures forall t :: t in plan.tables && Entries(src, t).Some? ==> EntriesFit(src, plan, Entries(src, t).value)
  {
    hide Entries, EntriesFit;
  }

  lemma PlanReads(src: Block, plan: Plan)
    requires Planned(src, plan)
    ensures forall t :: t in plan.tables ==> Entries(src, t).Some?
    ensures Distinct(plan.tables) && Distinct(plan.strings)
  {
  }

  lemma NoTables(src: Block, plan: Plan)
    ensures TablesBytes(src, plan, 0) == [] && TablesSize(src, []) == 0 && plan.tables[..0] == []
    ensures (forall n: nat :: [] + Zeros(n) == Zeros(n)) && FitSoFar(src, plan, 0)
  {
  }

  lemma ZerosInParts(a: nat, b: nat, before: seq<byte>)
    ensures before + Zeros(a + b) == before + Zeros(a) + Zeros(b)
  {
  }

  lemma NextTable(src: Block, plan: Plan, i: nat, limit: nat)
    requires i < |plan.tables| && Entries(src, plan.tables[i]).Some? && TablesSize(src, plan.tables) <= limit
    requires forall t :: t in plan.tables ==> Entries(src, t).Some?
    ensures var size := |TableBytes(src, plan, plan.tables[i])|;
      && TablesSize(src, plan.tables[..i + 1]) == TablesSize(src, plan.tables[..i]) + size <= limit
      && TablesBytes(src, plan, i + 1) == TablesBytes(src, plan, i) + TableBytes(src, plan, plan.tables[i])
      && |TablesBytes(src, plan, i)| == TablesSize(src, plan.tables[..i])
  {
    hide Entries, TableBytes, EntryCount;
    TableFits(src, plan, plan.tables[i]);
    TablesFit(src, plan, i);
    assert plan.tables[..i + 1][..i] == plan.tables[..i];
    TablesSizeGrows(src, plan.tables, i + 1);
  }

  lemma TargetsKnown(src: Block, plan: Plan, table: nat)
    requires LeavesKnown(src, plan) && table in plan.tables && Entries(src, table).Some?
    ensures forall e :: e in Entries(src, table).value && !Marked(e.target) ==> e.target in plan.leaves
  {
    hide Entries;
  }

  lemma PlaceGiven(src: Block, plan: Plan, tableAt: map<nat, nat>, leafAt: map<nat, nat>, textAt: map<seq<byte>, nat>, i: nat)
    requires Placed(src, plan, tableAt, leafAt, textAt) && Distinct(plan.tables) && i < |plan.tables|
    ensures plan.tables[i] in tableAt && tableAt[plan.tables[i]] == TablesSize(src, plan.tables[..i])
  {
    hide LeafAt, StringAt, TablesSize;
    assert First(plan.tables, plan.tables[i]) == i;
  }

  // ----- writing leaves

  predicate Reached(leaves: seq<nat>, count: nat, leaf: nat)
    requires count <= |leaves|
  {
    leaf in leaves[..count]
  }

  lemma OneMoreReached(leaves: seq<nat>, count: nat, leaf: nat)
    requires count < |leaves|
    ensures Reached(leaves, count + 1, leaf) == (Reached(leaves, count, leaf) || leaf == leaves[count])
  {
    assert leaves[..count + 1] == leaves[..count] + [leaves[count]];
  }

  /** A leaf's place once the first `count` leaves are written. */
  function PartSlot(src: Block, leaves: seq<nat>, count: nat, index: nat): (r: seq<byte>)
    requires index < |leaves| && count <= |leaves|
    ensures |r| == RECORD_SIZE
  {
    if Reached(leaves, count, leaves[index]) && Last(leaves, leaves[index]) == index && ReadRecord(src, leaves[index]).Some?
    then ReadRecord(src, leaves[index]).value
    else Zeros(RECORD_SIZE)
  }

  ghost predicate SlotsDone(region: seq<byte>, src: Block, leaves: seq<nat>, count: nat) {
    && count <= |leaves| && |region| == RECORD_SIZE * |leaves|
    && forall i :: 0 <= i < |leaves| ==> region[RECORD_SIZE * i..RECORD_SIZE * i + RECORD_SIZE] == PartSlot(src, leaves, count, i)
  }

  lemma SlotsStep(region: seq<byte>, src: Block, leaves: seq<nat>, count: nat)
    requires SlotsDone(region, src, leaves, count) && count < |leaves| && ReadRecord(src, leaves[count]).Some?
    ensures var at := RECORD_SIZE * Last(leaves, leaves[count]);
      at + RECORD_SIZE <= |region| && SlotsDone(Put(region, at, ReadRecord(src, leaves[count]).value), src, leaves, count + 1)
  {
    hide ReadRecord;
    var leaf := leaves[count];
    var last := Last(leaves, leaf);
    var at := RECORD_SIZE * last;
    var record := ReadRecord(src, leaf).value;
    RecordSize(src, leaf);
    var more := Put(region, at, record);
    forall i | 0 <= i < |leaves|
      ensures more[RECORD_SIZE * i..RECORD_SIZE * i + RECORD_SIZE] == PartSlot(src, leaves, count + 1, i)
    {
      hide Put, PartSlot, Last;
      SlotStep(src, leaves, count, i);
      PutApart(region, at, record, RECORD_SIZE * i);
    }
  }

  /** Writing a leaf fills its own place and no other. */
  lemma SlotStep(src: Block, leaves: seq<nat>, count: nat, index: nat)
    requires count < |leaves| && index < |leaves| && ReadRecord(src, leaves[count]).Some?
    ensures PartSlot(src, leaves, count + 1, index)
         == if index == Last(leaves, leaves[count]) then ReadRecord(src, leaves[count]).value else PartSlot(src, leaves, count, index)
  {
    var last := Last(leaves, leaves[count]);
    assert leaves[count] in leaves && leaves[last] == leaves[count];
    hide ReadRecord, Last, Reached;
    OneMoreReached(leaves, count, leaves[index]);
  }

  lemma RecordSize(src: Block, leaf: nat)
    requires ReadRecord(src, leaf).Some?
    ensures |ReadRecord(src, leaf).value| == RECORD_SIZE
  {
  }

  lemma PutApart(region: seq<byte>, at: nat, record: seq<byte>, other: nat)
    requires |record| == RECORD_SIZE && at + RECORD_SIZE <= |region| && other + RECORD_SIZE <= |region|
    ensures other + RECORD_SIZE <= at || at + RECORD_SIZE <= other ==>
              Put(region, at, record)[other..other + RECORD_SIZE] == region[other..other + RECORD_SIZE]
    ensures other == at ==> Put(region, at, record)[other..other + RECORD_SIZE] == record
  {
  }

  lemma {:induction false} SlotsComplete(region: seq<byte>, src: Block, leaves: seq<nat>, count: nat)
    requires SlotsDone(region, src, leaves, |leaves|) && count <= |leaves|
    requires forall leaf :: leaf in leaves ==> ReadRecord(src, leaf).Some?
    ensures region[..RECORD_SIZE * count] == SlotsBytes(src, leaves, count)
  {
    hide ReadRecord, PartSlot, SlotBytes;
    if count > 0 {
      SlotsComplete(region, src, leaves, count - 1);
      var at := RECORD_SIZE * (count - 1);
      FullSlot(src, leaves, count - 1);
      assert region[at..at + RECORD_SIZE] == PartSlot(src, leaves, |leaves|, count - 1);
      assert region[..at + RECORD_SIZE] == region[..at] + region[at..at + RECORD_SIZE];
    }
  }

  lemma FullSlot(src: Block, leaves: seq<nat>, index: nat)
    requires index < |leaves| && ReadRecord(src, leaves[index]).Some?
    ensures PartSlot(src, leaves, |leaves|, index) == SlotBytes(src, leaves, index)
  {
    hide ReadRecord;
    assert leaves[..|leaves|] == leaves && leaves[index] in leaves;
    assert index <= Last(leaves, leaves[index]);
  }

  lemma PutInside(front: seq<byte>, region: seq<byte>, end: seq<byte>, at: nat, bytes: seq<byte>)
    requires at + |bytes| <= |region|
    ensures Put(front + region + end, |front| + at, bytes) == front + Put(region, at, bytes) + end
  {
    var all := front + region + end;
    assert all[..|front| + at] == front + region[..at];
    assert all[|front| + at + |bytes|..] == region[at + |bytes|..] + end;
  }

  method WriteLeaves(
      buffer: array<byte>, src: Block, leaves: seq<nat>, leafAt: map<nat, nat>, ghost front: seq<byte>, ghost end: seq<byte>)
    returns (ok: bool)
    requires forall leaf :: leaf in leaves ==> leaf in leafAt && leafAt[leaf] == |front| + RECORD_SIZE * Last(leaves, leaf)
    requires buffer[..] == front + Zeros(RECORD_SIZE * |leaves|) + end
    modifies buffer
    ensures ok <==> forall leaf :: leaf in leaves ==> ReadRecord(src, leaf).Some?
    ensures ok ==> buffer[..] == front + SlotsBytes(src, leaves, |leaves|) + end
  {
    hide SlotsDone, ReadRecord;
    ghost var region := Zeros(RECORD_SIZE * |leaves|);
    NothingWritten(src, leaves);
    for i := 0 to |leaves|
      invariant buffer[..] == front + region + end && SlotsDone(region, src, leaves, i)
      invariant forall j :: 0 <= j < i ==> ReadRecord(src, leaves[j]).Some?
    {
      var record := ReadRecord(src, leaves[i]);
      if record.None? {
        return false;
      }
      ghost var at := RECORD_SIZE * Last(leaves, leaves[i]);
      SlotsStep(region, src, leaves, i);
      RecordSize(src, leaves[i]);
      PutInside(front, region, end, at, record.value);
      CopyInto(buffer, leafAt[leaves[i]], record.value);
      region := Put(region, at, record.value);
    }
    SlotsComplete(region, src, leaves, |leaves|);
    AllSlots(region, src, leaves);
    return true;
  }

  lemma AllSlots(region: seq<byte>, src: Block, leaves: seq<nat>)
    requires SlotsDone(region, src, leaves, |leaves|)
    ensures region[..RECORD_SIZE * |leaves|] == region
  {
  }

  lemma NothingWritten(src: Block, leaves: seq<nat>)
    ensures SlotsDone(Zeros(RECORD_SIZE * |leaves|), src, leaves, 0)
  {
  }

  // ----- writing texts

  method WriteStrings(buffer: array<byte>, strings: seq<seq<byte>>, textAt: map<seq<byte>, nat>, ghost front: seq<byte>)
    requires Distinct(strings) && buffer[..] == front + Zeros(|Concat(strings)|)
    requires forall text :: text in strings ==>
      text in textAt && textAt[text] == |front| + |Concat(strings[..First(strings, text)])|
    modifies buffer
    ensures buffer[..] == front + Concat(strings)
  {
    hide Concat, Zeros, Put;
    ghost var size := |Concat(strings)|;
    NoTexts(front, size, strings);
    for i := 0 to |strings|
      invariant |Concat(strings[..i])| <= size
      invariant buffer[..] == front + Concat(strings[..i]) + Zeros(size - |Concat(strings[..i])|)
    {
      var text := strings[i];
      assert First(strings, text) == i;
      ghost var done := Concat(strings[..i]);
      ConcatGrows(strings, i);
      ghost var rest := size - |done| - |text|;
      NextPart(strings, i);
      ZerosInParts(|text|, rest, front + done);
      PutOver(front + done, Zeros(|text|), Zeros(rest), text);
      CopyInto(buffer, textAt[text], text);
      Grouping(front, done, text);
    }
    assert strings[..|strings|] == strings;
    NoTexts(front + Concat(strings), 0, strings);
  }

  lemma NoTexts(front: seq<byte>, size: nat, strings: seq<seq<byte>>)
    ensures strings[..0] == [] && Concat([]) == [] && front + [] + Zeros(size) == front + Zeros(size)
    ensures size == 0 ==> front + Zeros(size) == front
  {
  }

  lemma NextPart(parts: seq<seq<byte>>, i: nat)
    requires i < |parts|
    ensures Concat(parts[..i + 1]) == Concat(parts[..i]) + parts[i]
  {
    assert parts[..i + 1][..i] == parts[..i];
  }

  // ----- the whole layout

  method BuildLayout(src: Block) returns (r: Option<Layout>)
    ensures r == LinkerLayout(src)
  {
    hide Entries, Tables, Leaves, Strings, Names, Planned, TablesSize, Concat, LeavesKnown,
      EntriesFit, ReadRecord, Distinct, First, Last, TablesBytes, SlotsBytes;
    var tables := FindTables(src);
    if tables.None? {
      return None;
    }
    var collected, leaves := CollectLeaves(src, 0, 0, []);
    if !collected {
      return None;
    }
    assert [] + Leaves(src, 0, 0).value == Leaves(src, 0, 0).value == leaves;
    assert Leaves(src, 0, 0) == Some(leaves);
    FoundReads(src);
    var tableAt, tablesEnd := PlaceTables(src, tables.value);
    var leafAt, leavesEnd := PlaceLeaves(leaves, tablesEnd);
    var strings, textAt, length := CollectStrings(src, tables.value, leavesEnd);
    if strings.None? {
      return None;
    }
    ghost var plan := Plan(tables.value, leaves, strings.value);
    PlanFound(src, tables.value, leaves, strings.value);
    PlansAreMade(src);
    LeavesAreKnown(src, plan);
    PlanReads(src, plan);
    assert Placed(src, plan, tableAt, leafAt, textAt);
    var buffer := new byte[length](_ => 0);
    assert buffer[..] == Zeros(length);
    var written := WriteTables(buffer, src, plan, tables.value, tableAt, leafAt, textAt);
    if !written {
      return None;
    }
    ghost var front, texts := TablesBytes(src, plan, |tables.value|), |Concat(strings.value)|;
    ZerosInParts(RECORD_SIZE * |leaves|, texts, front);
    written := WriteLeaves(buffer, src, leaves, leafAt, front, Zeros(texts));
    if !written {
      return None;
    }
    WriteStrings(buffer, strings.value, textAt, front + SlotsBytes(src, leaves, |leaves|));
    var places := LeafOffsets(leaves, leafAt);
    assert places == LeafPlaces(src, plan, leaves);
    assert buffer[..] == LayoutBytes(src, plan);
    return Some(Layout(buffer[..], places));
  }

  method LeafOffsets(leaves: seq<nat>, leafAt: map<nat, nat>) returns (places: seq<nat>)
    requires forall leaf :: leaf in leaves ==> leaf in leafAt
    ensures |places| == |leaves| && forall i :: 0 <= i < |leaves| ==> places[i] == leafAt[leaves[i]]
  {
    places := [];
    for i := 0 to |leaves|
      invariant |places| == i && forall j :: 0 <= j < i ==> places[j] == leafAt[leaves[j]]
    {
      places := places + [leafAt[leaves[i]]];
    }
  }

  lemma PlanFound(src: Block, tables: seq<nat>, leaves: seq<nat>, strings: seq<seq<byte>>)
    requires Entries(src, 0).Some? && Tables(src, [0], 0) == Some(tables) && Leaves(src, 0, 0) == Some(leaves)
    requires Strings(src, Names(src, tables)) == Some(strings)
    ensures PlanOf(src) == Some(Plan(tables, leaves, strings))
  {
    hide Entries, Tables, Leaves, Strings, Names;
  }

  lemma FoundReads(src: Block)
    requires Entries(src, 0).Some? && Tables(src, [0], 0).Some?
    ensures Distinct(Tables(src, [0], 0).value) && forall t :: t in Tables(src, [0], 0).value ==> Entries(src, t).Some?
  {
    hide Entries, Tables, Closed;
    TablesAreClosed(src, [0], 0);
    ClosedReads(src, Tables(src, [0], 0).value);
  }
}
