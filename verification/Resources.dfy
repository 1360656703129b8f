/**
  * Resource trees: tables of entries that lead to further tables or to leaf records, by number or
  * by name. Reading a tree, walking it, and laying it out again the way linkers do: tables breadth
  * first, leaf records depth first, each name once.
  */
module Resources {
  import opened Wrappers
  import opened Buffers
  import opened Bytes

  const TABLE_SIZE := 16
  const NAMED_COUNT_OFFSET := 12
  const ID_COUNT_OFFSET := 14
  const ENTRY_SIZE := 8
  const TARGET_OFFSET := 4
  const RECORD_SIZE := 16
  const FLAG := 0x8000_0000
  const MAX_DEPTH := 4
  const MAX_ENTRIES := 65536

  /** Resources within an image: offsets inside the tree count from `start`. */
  datatype Block = Block(bytes: seq<byte>, start: nat)

  datatype Entry = Entry(name: nat, target: nat)

  /** The top bit tells names from numbers, and tables from leaves. */
  predicate Marked(field: nat) {
    field >= FLAG
  }

  function Unmarked(field: nat): nat {
    if Marked(field) then field - FLAG else field
  }

  function Mark(offset: nat): nat {
    if Marked(offset) then offset else offset + FLAG
  }

  // ----- reading

  function ReadEntries(bytes: seq<byte>, at: nat, count: nat): (r: Option<seq<Entry>>)
    ensures r.Some? ==> |r.value| == count && forall e :: e in r.value ==> e.name < U32 && e.target < U32
    decreases count
  {
    if count == 0 then Some([])
    else
      var name :- ReadU32(bytes, at);
      var target :- ReadU32(bytes, at + TARGET_OFFSET);
      var rest :- ReadEntries(bytes, at + ENTRY_SIZE, count - 1);
      Some([Entry(name, target)] + rest)
  }

  function Entries(src: Block, table: nat): (r: Option<seq<Entry>>)
    ensures r.Some? ==> forall e :: e in r.value ==> e.name < U32 && e.target < U32
  {
    var named :- ReadU16(src.bytes, src.start + table + NAMED_COUNT_OFFSET);
    var numbered :- ReadU16(src.bytes, src.start + table + ID_COUNT_OFFSET);
    ReadEntries(src.bytes, src.start + table + TABLE_SIZE, named + numbered)
  }

  /** The counted text a marked name leads to: its length and its characters. */
  function ReadString(src: Block, name: nat): Option<seq<byte>> {
    var at := src.start + Unmarked(name);
    var units :- ReadU16(src.bytes, at);
    if at + 2 + units * 2 <= |src.bytes| then Some(src.bytes[at..at + 2 + units * 2]) else None
  }

  function ReadRecord(src: Block, leaf: nat): Option<seq<byte>> {
    var at := src.start + leaf;
    if at + RECORD_SIZE <= |src.bytes| then Some(src.bytes[at..at + RECORD_SIZE]) else None
  }

  // ----- the tree's meaning

  datatype Label = Id(id: nat) | Text(text: seq<byte>)

  datatype Branch = Branch(name: Label, node: Node)

  datatype Node = Leaf(record: seq<byte>) | Table(header: seq<byte>, branches: seq<Branch>)

  function ReadLabel(src: Block, name: nat): Option<Label> {
    if !Marked(name) then Some(Id(name))
    else
      var text :- ReadString(src, name);
      Some(Text(text))
  }

  function ReadTable(src: Block, table: nat, depth: nat): Option<Node>
    decreases MAX_DEPTH - depth, 0, 0
  {
    if depth >= MAX_DEPTH then None
    else
      var entries :- Entries(src, table);
      var header :- ReadRecord(src, table);
      var branches :- ReadBranches(src, entries, depth);
      Some(Table(header, branches))
  }

  function ReadBranches(src: Block, entries: seq<Entry>, depth: nat): Option<seq<Branch>>
    requires depth < MAX_DEPTH
    decreases MAX_DEPTH - depth - 1, 1, |entries|
  {
    if entries == [] then Some([])
    else
      var name :- ReadLabel(src, entries[0].name);
      var node :- ReadTarget(src, entries[0].target, depth);
      var rest :- ReadBranches(src, entries[1..], depth);
      Some([Branch(name, node)] + rest)
  }

  function ReadTarget(src: Block, target: nat, depth: nat): Option<Node>
    requires depth < MAX_DEPTH
    decreases MAX_DEPTH - depth - 1, 1, 0
  {
    if Marked(target) then ReadTable(src, Unmarked(target), depth + 1)
    else
      var record :- ReadRecord(src, target);
      Some(Leaf(record))
  }

  // ----- walking

  datatype Tree = Tree(length: nat, leaves: seq<nat>, budget: nat)

  function Max(a: nat, b: nat): nat {
    if a < b then b else a
  }

  function TableEnd(src: Block, table: nat): nat {
    table + TABLE_SIZE + ENTRY_SIZE * EntryCount(src, table)
  }

  function EntryCount(src: Block, table: nat): nat {
    if Entries(src, table).Some? then |Entries(src, table).value| else 0
  }

  function StringEnd(src: Block, name: nat): Option<nat> {
    var units :- ReadU16(src.bytes, src.start + Unmarked(name));
    Some(Unmarked(name) + 2 + units * 2)
  }

  function WalkTable(src: Block, table: nat, depth: nat, tree: Tree): Option<Tree>
    decreases MAX_DEPTH - depth, 0, 0
  {
    if depth >= MAX_DEPTH || |tree.leaves| >= MAX_ENTRIES then None
    else
      var entries :- Entries(src, table);
      WalkEntries(src, entries, depth, tree.(length := Max(tree.length, TableEnd(src, table))))
  }

  function WalkEntries(src: Block, entries: seq<Entry>, depth: nat, tree: Tree): Option<Tree>
    requires depth < MAX_DEPTH
    decreases MAX_DEPTH - depth - 1, 1, |entries|
  {
    if entries == [] then Some(tree)
    else
      var walked :- WalkEntry(src, entries[0], depth, tree);
      WalkEntries(src, entries[1..], depth, walked)
  }

  function WalkEntry(src: Block, entry: Entry, depth: nat, tree: Tree): Option<Tree>
    requires depth < MAX_DEPTH
    decreases MAX_DEPTH - depth - 1, 1, 0
  {
    if tree.budget == 0 then None
    else
      var nameEnd :- if Marked(entry.name) then StringEnd(src, entry.name) else Some(0);
      var length := Max(tree.length, nameEnd);
      if Marked(entry.target) then
        WalkTable(src, Unmarked(entry.target), depth + 1, Tree(length, tree.leaves, tree.budget - 1))
      else
        Some(Tree(Max(length, entry.target + RECORD_SIZE), tree.leaves + [entry.target], tree.budget - 1))
  }

  function WalkResources(src: Block): Option<Tree> {
    WalkTable(src, 0, 0, Tree(0, [], MAX_ENTRIES))
  }

  /** The names of the entries in the first two tables that lead to a leaf: its type and its name. */
  datatype Path = Path(kind: nat, name: nat)

  const ROOT_PATH := Path(0, 0)

  function Deeper(path: Path, depth: nat, name: nat): Path {
    if depth == 0 then path.(kind := name) else if depth == 1 then path.(name := name) else path
  }

  /** The paths of the leaves a walk collects, in the same order. */
  function Paths(src: Block, table: nat, depth: nat, path: Path): seq<Path>
    decreases MAX_DEPTH - depth, 0, 0
  {
    if depth >= MAX_DEPTH || Entries(src, table).None? then [] else PathsBelow(src, Entries(src, table).value, depth, path)
  }

  function PathsBelow(src: Block, entries: seq<Entry>, depth: nat, path: Path): seq<Path>
    requires depth < MAX_DEPTH
    decreases MAX_DEPTH - depth - 1, 1, |entries|
  {
    if entries == [] then []
    else PathsTo(src, entries[0], depth, path) + PathsBelow(src, entries[1..], depth, path)
  }

  function PathsTo(src: Block, entry: Entry, depth: nat, path: Path): seq<Path>
    requires depth < MAX_DEPTH
    decreases MAX_DEPTH - depth - 1, 1, 0
  {
    if Marked(entry.target) then Paths(src, Unmarked(entry.target), depth + 1, Deeper(path, depth, entry.name)) else [path]
  }

  // ----- tables breadth first

  function Children(entries: seq<Entry>): (r: seq<nat>)
    ensures (forall e :: e in entries ==> e.target < U32) ==> forall i :: 0 <= i < |r| ==> r[i] < FLAG
    ensures forall e :: e in entries && Marked(e.target) ==> Unmarked(e.target) in r
  {
    if entries == [] then []
    else (if Marked(entries[0].target) then [Unmarked(entries[0].target)] else []) + Children(entries[1..])
  }

  function Total(src: Block, tables: seq<nat>): nat {
    if tables == [] then 0 else Total(src, tables[..|tables| - 1]) + EntryCount(src, tables[|tables| - 1])
  }

  /** The tables found with one table's children after them; a linker never shares a table. */
  function WithChildren(src: Block, found: seq<nat>, children: seq<nat>): (r: Option<seq<nat>>)
    ensures r.Some? ==> r.value == found + children && (children != [] ==> children[0] !in found)
    decreases |children|
  {
    if children == [] then Some(found)
    else if children[0] in found || Entries(src, children[0]).None? then None
    else if Total(src, found + [children[0]]) > MAX_ENTRIES then None
    else WithChildren(src, found + [children[0]], children[1..])
  }

  ghost function Unseen(found: seq<nat>): set<nat> {
    set offset: nat | offset < FLAG && offset !in found
  }

  lemma UnseenShrinks(found: seq<nat>, more: seq<nat>)
    requires more != [] ==> more[0] !in found && more[0] < FLAG
    ensures if more == [] then found + more == found else Unseen(found + more) < Unseen(found)
  {
    if more != [] {
      assert more[0] in Unseen(found) && more[0] in found + more;
    }
  }

  function Tables(src: Block, found: seq<nat>, next: nat): Option<seq<nat>>
    requires next <= |found|
    decreases Unseen(found), |found| - next
  {
    if next == |found| then Some(found)
    else
      var entries :- Entries(src, found[next]);
      var children := Children(entries);
      var more :- WithChildren(src, found, children);
      UnseenShrinks(found, children);
      Tables(src, more, next + 1)
  }

  // ----- leaves depth first

  function Leaves(src: Block, table: nat, depth: nat): Option<seq<nat>>
    decreases MAX_DEPTH - depth, 0, 0
  {
    if depth >= MAX_DEPTH then None
    else
      var entries :- Entries(src, table);
      LeavesBelow(src, entries, depth)
  }

  function LeavesBelow(src: Block, entries: seq<Entry>, depth: nat): Option<seq<nat>>
    requires depth < MAX_DEPTH
    decreases MAX_DEPTH - depth - 1, 1, |entries|
  {
    if entries == [] then Some([])
    else
      var first :- if Marked(entries[0].target) then Leaves(src, Unmarked(entries[0].target), depth + 1)
                   else Some([entries[0].target]);
      var rest :- LeavesBelow(src, entries[1..], depth);
      Some(first + rest)
  }

  // ----- names, each once

  function MarkedNames(entries: seq<Entry>): seq<nat> {
    if entries == [] then []
    else (if Marked(entries[0].name) then [entries[0].name] else []) + MarkedNames(entries[1..])
  }

  function Names(src: Block, tables: seq<nat>): seq<nat> {
    if tables == [] then []
    else
      var last := tables[|tables| - 1];
      Names(src, tables[..|tables| - 1]) + (if Entries(src, last).Some? then MarkedNames(Entries(src, last).value) else [])
  }

  function Strings(src: Block, names: seq<nat>): Option<seq<seq<byte>>> {
    if names == [] then Some([])
    else
      var found :- Strings(src, names[..|names| - 1]);
      var text :- ReadString(src, names[|names| - 1]);
      Some(if text in found then found else found + [text])
  }

  // ----- where everything goes

  datatype Plan = Plan(tables: seq<nat>, leaves: seq<nat>, strings: seq<seq<byte>>)

  function Concat(parts: seq<seq<byte>>): seq<byte> {
    if parts == [] then [] else Concat(parts[..|parts| - 1]) + parts[|parts| - 1]
  }

  /** Where `x` first stands, or the length if nowhere. */
  function First<T(==)>(s: seq<T>, x: T): (r: nat)
    ensures r <= |s| && (x in s ==> r < |s| && s[r] == x)
    ensures forall i :: 0 <= i < r ==> s[i] != x
  {
    if s == [] || s[0] == x then 0 else 1 + First(s[1..], x)
  }

  /** Where `x` last stands, or zero if nowhere. */
  function Last<T(==)>(s: seq<T>, x: T): (r: nat)
    ensures r <= |s| && (x in s ==> r < |s| && s[r] == x)
    ensures forall i :: r < i < |s| ==> s[i] != x
  {
    if s == [] then 0
    else if s[|s| - 1] == x then |s| - 1
    else Last(s[..|s| - 1], x)
  }

  function TablesSize(src: Block, tables: seq<nat>): nat {
    if tables == [] then 0
    else TablesSize(src, tables[..|tables| - 1]) + TABLE_SIZE + ENTRY_SIZE * EntryCount(src, tables[|tables| - 1])
  }

  function TableAt(src: Block, plan: Plan, table: nat): nat {
    TablesSize(src, plan.tables[..First(plan.tables, table)])
  }

  /** A record that several entries share takes the last of their places. */
  function LeafAt(src: Block, plan: Plan, leaf: nat): nat {
    TablesSize(src, plan.tables) + RECORD_SIZE * Last(plan.leaves, leaf)
  }

  function StringsStart(src: Block, plan: Plan): nat {
    TablesSize(src, plan.tables) + RECORD_SIZE * |plan.leaves|
  }

  function StringAt(src: Block, plan: Plan, text: seq<byte>): nat {
    StringsStart(src, plan) + |Concat(plan.strings[..First(plan.strings, text)])|
  }

  function NewName(src: Block, plan: Plan, name: nat): nat {
    if Marked(name) && ReadString(src, name).Some? then Mark(StringAt(src, plan, ReadString(src, name).value)) else name
  }

  function NewTarget(src: Block, plan: Plan, target: nat): nat {
    if Marked(target) then Mark(TableAt(src, plan, Unmarked(target))) else LeafAt(src, plan, target)
  }

  function NewEntry(src: Block, plan: Plan, entry: Entry): Entry {
    Entry(NewName(src, plan, entry.name), NewTarget(src, plan, entry.target))
  }

  function NewEntries(src: Block, plan: Plan, entries: seq<Entry>): (r: seq<Entry>)
    ensures |r| == |entries| && forall i :: 0 <= i < |r| ==> r[i] == NewEntry(src, plan, entries[i])
  {
    if entries == [] then [] else [NewEntry(src, plan, entries[0])] + NewEntries(src, plan, entries[1..])
  }

  function EntriesBytes(entries: seq<Entry>): (r: seq<byte>)
    ensures |r| == ENTRY_SIZE * |entries|
  {
    if entries == [] then []
    else U32Bytes(entries[0].name) + U32Bytes(entries[0].target) + EntriesBytes(entries[1..])
  }

  // ----- the layout

  function TableBytes(src: Block, plan: Plan, table: nat): seq<byte> {
    var header, entries := ReadRecord(src, table), Entries(src, table);
    if header.None? || entries.None? then [] else header.value + EntriesBytes(NewEntries(src, plan, entries.value))
  }

  /** The bytes of the first `count` tables. */
  function TablesBytes(src: Block, plan: Plan, count: nat): seq<byte>
    requires count <= |plan.tables|
  {
    if count == 0 then [] else TablesBytes(src, plan, count - 1) + TableBytes(src, plan, plan.tables[count - 1])
  }

  /** A record's bytes stand at its last place; an earlier place of a shared record stays empty. */
  function SlotBytes(src: Block, leaves: seq<nat>, index: nat): (r: seq<byte>)
    requires index < |leaves|
    ensures |r| == RECORD_SIZE
  {
    var record := ReadRecord(src, leaves[index]);
    if record.None? || index < Last(leaves, leaves[index]) then Zeros(RECORD_SIZE) else record.value
  }

  function SlotsBytes(src: Block, leaves: seq<nat>, count: nat): (r: seq<byte>)
    requires count <= |leaves|
    ensures |r| == RECORD_SIZE * count
  {
    if count == 0 then [] else SlotsBytes(src, leaves, count - 1) + SlotBytes(src, leaves, count - 1)
  }

  function LayoutBytes(src: Block, plan: Plan): seq<byte> {
    TablesBytes(src, plan, |plan.tables|) + SlotsBytes(src, plan.leaves, |plan.leaves|) + Concat(plan.strings)
  }

  function PlanOf(src: Block): Option<Plan> {
    var root :- Entries(src, 0);
    var tables :- Tables(src, [0], 0);
    var leaves :- Leaves(src, 0, 0);
    var strings :- Strings(src, Names(src, tables));
    Some(Plan(tables, leaves, strings))
  }

  datatype Layout = Layout(bytes: seq<byte>, leaves: seq<nat>)

  predicate EntryFits(src: Block, plan: Plan, entry: Entry) {
    && (Marked(entry.name) && ReadString(src, entry.name).Some? ==> StringAt(src, plan, ReadString(src, entry.name).value) < U32)
    && (if Marked(entry.target) then TableAt(src, plan, Unmarked(entry.target)) else LeafAt(src, plan, entry.target)) < U32
  }

  predicate EntriesFit(src: Block, plan: Plan, entries: seq<Entry>) {
    forall e :: e in entries ==> EntryFits(src, plan, e)
  }

  /** The records have to be there, and what entries lead to within reach of 32 bits. */
  predicate Writable(src: Block, plan: Plan) {
    && (forall leaf :: leaf in plan.leaves ==> ReadRecord(src, leaf).Some?)
    && (forall table :: table in plan.tables && Entries(src, table).Some? ==> EntriesFit(src, plan, Entries(src, table).value))
  }

  function LeafPlaces(src: Block, plan: Plan, leaves: seq<nat>): (r: seq<nat>)
    ensures |r| == |leaves|
  {
    seq(|leaves|, i requires 0 <= i < |leaves| => LeafAt(src, plan, leaves[i]))
  }

  function LinkerLayout(src: Block): Option<Layout> {
    var plan :- PlanOf(src);
    if Writable(src, plan) then Some(Layout(LayoutBytes(src, plan), LeafPlaces(src, plan, plan.leaves))) else None
  }
}
