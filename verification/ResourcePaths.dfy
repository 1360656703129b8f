/** The types and names a walk reports for its leaves, and that a layout keeps them. */
module ResourcePaths {
  import opened Wrappers
  import opened Buffers
  import opened Bytes
  import opened Resources
  import opened ResourceLayout

  /** Each leaf has its path. */
  lemma {:induction false} EveryLeafHasAPath(src: Block, table: nat, depth: nat, path: Path)
    requires Leaves(src, table, depth).Some?
    ensures |Paths(src, table, depth, path)| == |Leaves(src, table, depth).value|
    decreases MAX_DEPTH - depth, 0, 0
  {
    hide Entries, LeavesBelow, PathsBelow;
    EveryLeafBelow(src, Entries(src, table).value, depth, path);
  }

  lemma {:induction false} EveryLeafBelow(src: Block, entries: seq<Entry>, depth: nat, path: Path)
    requires depth < MAX_DEPTH && LeavesBelow(src, entries, depth).Some?
    ensures |PathsBelow(src, entries, depth, path)| == |LeavesBelow(src, entries, depth).value|
    decreases MAX_DEPTH - depth - 1, 1, |entries|
  {
    hide Entries, Leaves, Paths;
    if entries != [] {
      if Marked(entries[0].target) {
        EveryLeafHasAPath(src, Unmarked(entries[0].target), depth + 1, Deeper(path, depth, entries[0].name));
      }
      EveryLeafBelow(src, entries[1..], depth, path);
    }
  }

  // ----- what the tree itself says

  /** For each leaf of a tree, from left to right, the names of the branches that lead to it. */
  function Routes(node: Node): seq<seq<Label>>
    decreases node, if node.Table? then |node.branches| + 1 else 0
  {
    match node
    case Leaf(_) => [[]]
    case Table(_, _) => RoutesFrom(node, 0)
  }

  function RoutesFrom(node: Node, i: nat): seq<seq<Label>>
    requires node.Table? && i <= |node.branches|
    decreases node, |node.branches| - i
  {
    if i == |node.branches| then []
    else Behind(node.branches[i].name, Routes(node.branches[i].node)) + RoutesFrom(node, i + 1)
  }

  function Behind(name: Label, routes: seq<seq<Label>>): (r: seq<seq<Label>>)
    ensures |r| == |routes|
  {
    seq(|routes|, k requires 0 <= k < |routes| => [name] + routes[k])
  }

  /**
    * A leaf's type is the first branch on its route and its name is the second. The branch that leads
    * to the leaf itself does not count; what is missing is zero.
    */
  predicate Tells(src: Block, path: Path, route: seq<Label>) {
    && ReadLabel(src, path.kind) == Some(if |route| >= 2 then route[0] else Id(0))
    && ReadLabel(src, path.name) == Some(if |route| >= 3 then route[1] else Id(0))
  }

  /** The same, on the way: the tables entered so far are the branches so far. */
  predicate TellsSoFar(src: Block, path: Path, before: seq<Label>) {
    && ReadLabel(src, path.kind) == Some(if |before| >= 1 then before[0] else Id(0))
    && ReadLabel(src, path.name) == Some(if |before| >= 2 then before[1] else Id(0))
  }

  predicate AllTell(src: Block, paths: seq<Path>, before: seq<Label>, routes: seq<seq<Label>>) {
    |paths| == |routes| && forall k :: 0 <= k < |paths| ==> Tells(src, paths[k], before + routes[k])
  }

  lemma {:induction false} TableTells(src: Block, table: nat, depth: nat, path: Path, before: seq<Label>)
    requires ReadTable(src, table, depth).Some? && |before| == depth && TellsSoFar(src, path, before)
    ensures AllTell(src, Paths(src, table, depth, path), before, Routes(ReadTable(src, table, depth).value))
    decreases MAX_DEPTH - depth, 0, 0
  {
    hide Entries, ReadRecord, ReadBranches, PathsBelow, AllTell, TellsSoFar;
    var node := ReadTable(src, table, depth).value;
    assert node.branches[0..] == node.branches;
    BranchesTell(src, Entries(src, table).value, depth, path, before, node, 0);
  }

  lemma {:induction false} BranchesTell(
      src: Block, entries: seq<Entry>, depth: nat, path: Path, before: seq<Label>, node: Node, i: nat)
    requires depth < MAX_DEPTH && node.Table? && i <= |node.branches| && |before| == depth && TellsSoFar(src, path, before)
    requires ReadBranches(src, entries, depth) == Some(node.branches[i..])
    ensures AllTell(src, PathsBelow(src, entries, depth, path), before, RoutesFrom(node, i))
    decreases MAX_DEPTH - depth - 1, 1, |entries|
  {
    hide Entries, ReadRecord, ReadTable, ReadLabel, Paths, Tells, TellsSoFar, Deeper, AllTell, Behind;
    if entries == [] {
      NoneTell(src, before);
    } else {
      var e, rest := entries[0], entries[1..];
      assert ReadBranches(src, entries, depth).value[1..] == ReadBranches(src, rest, depth).value;
      assert node.branches[i..][0] == node.branches[i] && node.branches[i..][1..] == node.branches[i + 1..];
      BranchesTell(src, rest, depth, path, before, node, i + 1);
      var b := node.branches[i];
      if Marked(e.target) {
        OneDeeper(src, path, depth, e.name, before, b.name);
        TableTells(src, Unmarked(e.target), depth + 1, Deeper(path, depth, e.name), before + [b.name]);
        OneFurther(src, PathsTo(src, e, depth, path), before, b.name, Routes(b.node));
      } else {
        LeafTells(src, path, before, b.name);
      }
      BothTell(src, PathsTo(src, e, depth, path), PathsBelow(src, rest, depth, path), before, Behind(b.name, Routes(b.node)),
               RoutesFrom(node, i + 1));
    }
  }

  lemma NoneTell(src: Block, before: seq<Label>)
    ensures AllTell(src, [], before, [])
  {
  }

  lemma OneDeeper(src: Block, path: Path, depth: nat, name: nat, before: seq<Label>, added: Label)
    requires |before| == depth && TellsSoFar(src, path, before) && ReadLabel(src, name) == Some(added)
    ensures TellsSoFar(src, Deeper(path, depth, name), before + [added])
  {
    hide ReadLabel;
  }

  lemma OneFurther(src: Block, paths: seq<Path>, before: seq<Label>, added: Label, routes: seq<seq<Label>>)
    requires AllTell(src, paths, before + [added], routes)
    ensures AllTell(src, paths, before, Behind(added, routes))
  {
    hide Tells;
    forall k | 0 <= k < |paths|
      ensures Tells(src, paths[k], before + Behind(added, routes)[k])
    {
      assert before + [added] + routes[k] == before + ([added] + routes[k]);
    }
  }

  lemma LeafTells(src: Block, path: Path, before: seq<Label>, added: Label)
    requires TellsSoFar(src, path, before)
    ensures AllTell(src, [path], before, Behind(added, [[]]))
  {
    hide ReadLabel;
    assert Behind(added, [[]])[0] == [added] + [] && [added] + [] == [added];
  }

  lemma BothTell(
      src: Block, a: seq<Path>, b: seq<Path>, before: seq<Label>, first: seq<seq<Label>>, second: seq<seq<Label>>)
    requires AllTell(src, a, before, first) && AllTell(src, b, before, second)
    ensures AllTell(src, a + b, before, first + second)
  {
    hide Tells;
  }

  /** The types and names a walk reports are those of the tree's leaves, from left to right. */
  lemma PathsAreTheTrees(src: Block)
    requires ReadTable(src, 0, 0).Some?
    ensures var paths, routes := Paths(src, 0, 0, ROOT_PATH), Routes(ReadTable(src, 0, 0).value);
      |paths| == |routes| && forall k :: 0 <= k < |paths| ==> Tells(src, paths[k], routes[k])
  {
    hide Paths, Routes, Tells, ReadTable;
    TableTells(src, 0, 0, ROOT_PATH, []);
    forall route: seq<Label>
      ensures [] + route == route
    {
    }
  }

  // ----- the layout keeps them

  function NewPath(src: Block, plan: Plan, path: Path): Path {
    Path(NewName(src, plan, path.kind), NewName(src, plan, path.name))
  }

  function NewPaths(src: Block, plan: Plan, paths: seq<Path>): (r: seq<Path>)
    ensures |r| == |paths| && forall i :: 0 <= i < |r| ==> r[i] == NewPath(src, plan, paths[i])
  {
    seq(|paths|, i requires 0 <= i < |paths| => NewPath(src, plan, paths[i]))
  }

  lemma NewPathsOfBoth(src: Block, plan: Plan, a: seq<Path>, b: seq<Path>)
    ensures NewPaths(src, plan, a + b) == NewPaths(src, plan, a) + NewPaths(src, plan, b)
  {
    hide NewPath;
  }

  lemma {:induction false} SamePaths(src: Block, plan: Plan, block: Block, table: nat, depth: nat, path: Path)
    requires Planned(src, plan) && Mirrors(src, plan, block) && table in plan.tables
    requires Leaves(src, table, depth).Some? && forall leaf :: leaf in Leaves(src, table, depth).value ==> leaf in plan.leaves
    ensures Paths(block, TableAt(src, plan, table), depth, NewPath(src, plan, path))
         == NewPaths(src, plan, Paths(src, table, depth, path))
    decreases MAX_DEPTH - depth, 0, 0
  {
    hide Entries, NewEntries, TableAt, Planned, Known, PathsBelow, LeavesBelow, NewPath, ReadRecord, ReadString, LeafAt, StringAt;
    TablesAreKnown(src, plan, table);
    SamePathsBelow(src, plan, block, Entries(src, table).value, depth, path);
  }

  lemma {:induction false} SamePathsBelow(src: Block, plan: Plan, block: Block, entries: seq<Entry>, depth: nat, path: Path)
    requires Planned(src, plan) && Mirrors(src, plan, block) && Known(src, plan, entries) && depth < MAX_DEPTH
    requires LeavesBelow(src, entries, depth).Some? && forall leaf :: leaf in LeavesBelow(src, entries, depth).value ==> leaf in plan.leaves
    ensures PathsBelow(block, NewEntries(src, plan, entries), depth, NewPath(src, plan, path))
         == NewPaths(src, plan, PathsBelow(src, entries, depth, path))
    decreases MAX_DEPTH - depth - 1, 1, |entries|
  {
    hide Entries, Planned, Mirrors, Paths, PathsTo, Leaves, NewPath, NewEntry, Children;
    if entries != [] {
      assert entries[0] in entries && forall e :: e in entries[1..] ==> e in entries;
      SamePathsTo(src, plan, block, entries[0], depth, path);
      SamePathsBelow(src, plan, block, entries[1..], depth, path);
      assert NewEntries(src, plan, entries)[1..] == NewEntries(src, plan, entries[1..]);
      NewPathsOfBoth(src, plan, PathsTo(src, entries[0], depth, path), PathsBelow(src, entries[1..], depth, path));
    }
  }

  lemma {:induction false} SamePathsTo(src: Block, plan: Plan, block: Block, entry: Entry, depth: nat, path: Path)
    requires Planned(src, plan) && Mirrors(src, plan, block) && depth < MAX_DEPTH
    requires Marked(entry.target) ==> Unmarked(entry.target) in plan.tables && Leaves(src, Unmarked(entry.target), depth + 1).Some?
    requires Marked(entry.target) ==> forall leaf :: leaf in Leaves(src, Unmarked(entry.target), depth + 1).value ==> leaf in plan.leaves
    requires !Marked(entry.target) ==> entry.target in plan.leaves
    ensures PathsTo(block, NewEntry(src, plan, entry), depth, NewPath(src, plan, path))
         == NewPaths(src, plan, PathsTo(src, entry, depth, path))
    decreases MAX_DEPTH - depth - 1, 1, 0
  {
    hide Entries, Planned, Paths, Leaves, NewName, TableAt, LeafAt, StringAt, NewEntries, ReadRecord, ReadString;
    if Marked(entry.target) {
      SamePaths(src, plan, block, Unmarked(entry.target), depth + 1, Deeper(path, depth, entry.name));
    }
  }

  // ----- their texts are in the block

  ghost predicate PathKnown(src: Block, plan: Plan, path: Path) {
    NameKnown(src, plan, path.kind) && NameKnown(src, plan, path.name)
  }

  ghost predicate NameKnown(src: Block, plan: Plan, name: nat) {
    Marked(name) ==> ReadString(src, name).Some? && ReadString(src, name).value in plan.strings
  }

  lemma {:induction false} NamesAreKnown(src: Block, plan: Plan, table: nat, depth: nat, path: Path)
    requires Planned(src, plan) && table in plan.tables && PathKnown(src, plan, path)
    ensures forall p :: p in Paths(src, table, depth, path) ==> PathKnown(src, plan, p)
    decreases MAX_DEPTH - depth, 0, 0
  {
    hide Entries, Planned, Known, PathsBelow, PathKnown;
    if depth < MAX_DEPTH && Entries(src, table).Some? {
      TablesAreKnown(src, plan, table);
      NamesBelowAreKnown(src, plan, Entries(src, table).value, depth, path);
    }
  }

  lemma {:induction false} NamesBelowAreKnown(src: Block, plan: Plan, entries: seq<Entry>, depth: nat, path: Path)
    requires Planned(src, plan) && Known(src, plan, entries) && depth < MAX_DEPTH && PathKnown(src, plan, path)
    ensures forall p :: p in PathsBelow(src, entries, depth, path) ==> PathKnown(src, plan, p)
    decreases MAX_DEPTH - depth - 1, 1, |entries|
  {
    hide Entries, Planned, Paths, ReadString;
    if entries != [] {
      assert entries[0] in entries && forall e :: e in entries[1..] ==> e in entries;
      if Marked(entries[0].target) {
        NamesAreKnown(src, plan, Unmarked(entries[0].target), depth + 1, Deeper(path, depth, entries[0].name));
      }
      NamesBelowAreKnown(src, plan, entries[1..], depth, path);
    }
  }

  /** A layout reports for each leaf the type and the name it had: the same numbers, and the same texts. */
  lemma LayoutKeepsThePaths(src: Block, i: nat)
    requires LinkerLayout(src).Some? && |LinkerLayout(src).value.bytes| <= FLAG
    requires i < |Paths(src, 0, 0, ROOT_PATH)|
    ensures var block := Block(LinkerLayout(src).value.bytes, 0);
      var before, after := Paths(src, 0, 0, ROOT_PATH), Paths(block, 0, 0, ROOT_PATH);
      && |after| == |before| == |LinkerLayout(src).value.leaves|
      && ReadLabel(block, after[i].kind) == ReadLabel(src, before[i].kind)
      && ReadLabel(block, after[i].name) == ReadLabel(src, before[i].name)
  {
    hide PlanOf, Planned, Mirrors, Writable, LayoutBytes, Leaves, LeafPlaces, Paths, NewName, ReadLabel;
    var plan := PlanOf(src).value;
    var block := Block(LayoutBytes(src, plan), 0);
    PlansAreMade(src);
    LayoutMirrors(src, plan);
    RootComesFirst(src, plan);
    EveryLeafHasAPath(src, 0, 0, ROOT_PATH);
    RootPathStays(src, plan);
    SamePaths(src, plan, block, 0, 0, ROOT_PATH);
    NamesAreKnown(src, plan, 0, 0, ROOT_PATH);
    assert Paths(src, 0, 0, ROOT_PATH)[i] in Paths(src, 0, 0, ROOT_PATH);
    SameLabel(src, plan, block, Paths(src, 0, 0, ROOT_PATH)[i].kind);
    SameLabel(src, plan, block, Paths(src, 0, 0, ROOT_PATH)[i].name);
  }

  lemma RootPathStays(src: Block, plan: Plan)
    ensures NewPath(src, plan, ROOT_PATH) == ROOT_PATH
  {
  }
}
