/** Breadth first and depth first, a tree has the same tables; what a walk over them finds. */
module ResourceWalk {
  import opened Wrappers
  import opened Bytes
  import opened Resources
  import opened ResourceLayout

  // ----- tables depth first

  function Preorder(src: Block, table: nat, depth: nat): seq<nat>
    decreases MAX_DEPTH - depth, 0, 0
  {
    if depth >= MAX_DEPTH || Entries(src, table).None? then []
    else [table] + PreorderAll(src, Children(Entries(src, table).value), depth + 1)
  }

  function PreorderAll(src: Block, tables: seq<nat>, depth: nat): seq<nat>
    requires depth > 0
    decreases MAX_DEPTH - depth, 1, |tables|
  {
    if tables == [] then [] else Preorder(src, tables[0], depth) + PreorderAll(src, tables[1..], depth)
  }

  lemma {:induction false} ChildrenHaveLeaves(src: Block, entries: seq<Entry>, depth: nat)
    requires depth < MAX_DEPTH && LeavesBelow(src, entries, depth).Some?
    ensures forall c :: c in Children(entries) ==> Leaves(src, c, depth + 1).Some?
    decreases |entries|
  {
    hide Leaves;
    if entries != [] {
      ChildrenHaveLeaves(src, entries[1..], depth);
    }
  }

  /** The tables in a queue and all below them. */
  function Pending(src: Block, tables: seq<nat>, depths: seq<nat>): seq<nat>
    requires |tables| == |depths|
  {
    if tables == [] then [] else Preorder(src, tables[0], depths[0]) + Pending(src, tables[1..], depths[1..])
  }

  lemma {:induction false} PendingAdds(src: Block, tables: seq<nat>, depths: seq<nat>, more: seq<nat>, depth: nat)
    requires |tables| == |depths| && depth > 0
    ensures Pending(src, tables + more, depths + seq(|more|, _ => depth))
         == Pending(src, tables, depths) + PreorderAll(src, more, depth)
    decreases |tables| + |more|
  {
    hide Preorder;
    var all := depths + seq(|more|, _ => depth);
    if tables != [] {
      PendingAdds(src, tables[1..], depths[1..], more, depth);
      assert (tables + more)[1..] == tables[1..] + more;
      assert all[1..] == depths[1..] + seq(|more|, _ => depth);
      var first, rest := Preorder(src, tables[0], depths[0]), Pending(src, tables[1..], depths[1..]);
      assert first + (rest + PreorderAll(src, more, depth)) == first + rest + PreorderAll(src, more, depth);
    } else if more != [] {
      PendingAdds(src, [], [], more[1..], depth);
      assert (tables + more)[1..] == [] + more[1..];
      assert all[1..] == [] + seq(|more[1..]|, _ => depth);
    }
  }

  /** Visiting one table moves it from the queue to what is visited, and its children into the queue. */
  lemma QueueStep(src: Block, found: seq<nat>, depths: seq<nat>, next: nat, children: seq<nat>)
    requires next < |found| == |depths| && Deep(src, found, depths, next)
    requires Entries(src, found[next]).Some? && children == Children(Entries(src, found[next]).value)
    ensures var more, deeper := found + children, depths + seq(|children|, _ => depths[next] + 1);
      multiset(more[..next + 1]) + multiset(Pending(src, more[next + 1..], deeper[next + 1..]))
      == multiset(found[..next]) + multiset(Pending(src, found[next..], depths[next..]))
  {
    hide Entries, Children, Preorder, Leaves, PreorderAll;
    var t, depth := found[next], depths[next];
    var deep := seq(|children|, _ => depth + 1);
    var more, deeper := found + children, depths + deep;
    var rest, below := Pending(src, found[next + 1..], depths[next + 1..]), PreorderAll(src, children, depth + 1);
    assert more[next + 1..] == found[next + 1..] + children;
    assert deeper[next + 1..] == depths[next + 1..] + deep;
    PendingAdds(src, found[next + 1..], depths[next + 1..], children, depth + 1);
    assert more[..next + 1] == found[..next] + [t];
    OneTable(src, t, depth);
    assert found[next..][1..] == found[next + 1..] && depths[next..][1..] == depths[next + 1..];
    assert Pending(src, found[next..], depths[next..]) == [t] + below + rest;
  }

  ghost predicate Deep(src: Block, found: seq<nat>, depths: seq<nat>, next: nat)
    requires |found| == |depths|
  {
    forall i :: next <= i < |found| ==> Leaves(src, found[i], depths[i]).Some?
  }

  lemma DeepStep(src: Block, found: seq<nat>, depths: seq<nat>, next: nat)
    requires next < |found| == |depths| && Deep(src, found, depths, next)
    requires Tables(src, found, next).Some?
    ensures Entries(src, found[next]).Some?
    ensures var children := Children(Entries(src, found[next]).value);
      && Deep(src, found + children, depths + seq(|children|, _ => depths[next] + 1), next + 1)
      && Tables(src, found + children, next + 1) == Tables(src, found, next)
      && WithChildren(src, found, children).Some?
  {
    hide Entries, WithChildren, Children, LeavesBelow;
    var children := Children(Entries(src, found[next]).value);
    ChildrenHaveLeaves(src, Entries(src, found[next]).value, depths[next]);
    WithChildrenAdds(src, found, children);
    var more, deeper := found + children, depths + seq(|children|, _ => depths[next] + 1);
    forall i | next + 1 <= i < |more|
      ensures Leaves(src, more[i], deeper[i]).Some?
    {
      if i < |found| {
        assert Leaves(src, found[i], depths[i]).Some?;
      } else {
        assert more[i] in children;
      }
    }
  }

  lemma {:induction false} BreadthIsDepth(src: Block, found: seq<nat>, depths: seq<nat>, next: nat)
    requires next <= |found| == |depths| && Tables(src, found, next).Some? && Deep(src, found, depths, next)
    ensures multiset(Tables(src, found, next).value)
         == multiset(found[..next]) + multiset(Pending(src, found[next..], depths[next..]))
    decreases Unseen(found), |found| - next
  {
    hide Entries, WithChildren, Children, Deep, Pending, Tables, Leaves;
    if next == |found| {
      NothingPending(src, found, depths);
    } else {
      hide Unseen;
      DeepStep(src, found, depths, next);
      var children := Children(Entries(src, found[next]).value);
      FewerUnseen(src, found, next);
      QueueStep(src, found, depths, next, children);
      BreadthIsDepth(src, found + children, depths + seq(|children|, _ => depths[next] + 1), next + 1);
    }
  }

  lemma NothingPending(src: Block, found: seq<nat>, depths: seq<nat>)
    requires |found| == |depths|
    ensures Tables(src, found, |found|) == Some(found) && found[..|found|] == found
    ensures Pending(src, found[|found|..], depths[|found|..]) == []
  {
  }

  lemma OneTable(src: Block, table: nat, depth: nat)
    requires Leaves(src, table, depth).Some?
    ensures Entries(src, table).Some?
    ensures Preorder(src, table, depth) == [table] + PreorderAll(src, Children(Entries(src, table).value), depth + 1)
  {
    hide Entries;
  }

  /** Every table is visited once, in either order. */
  lemma TablesArePreorder(src: Block, plan: Plan)
    requires Planned(src, plan)
    ensures multiset(plan.tables) == multiset(Preorder(src, 0, 0))
  {
    hide Entries, Preorder, Tables, Leaves, Strings, Names, Closed;
    BreadthIsDepth(src, [0], [0], 0);
    assert [0][0..] == [0] && [0][..0] == [];
    assert Pending(src, [0], [0]) == Preorder(src, 0, 0) + Pending(src, [0][1..], [0][1..]);
    assert Preorder(src, 0, 0) + [] == Preorder(src, 0, 0);
  }

  /** The children of each table in turn. */
  function AllChildren(src: Block, tables: seq<nat>): seq<nat> {
    if tables == [] then []
    else (if Entries(src, tables[0]).Some? then Children(Entries(src, tables[0]).value) else []) + AllChildren(src, tables[1..])
  }

  lemma {:induction false} ChildrenFollow(src: Block, found: seq<nat>, next: nat)
    requires next <= |found| && Tables(src, found, next).Some?
    ensures var all := Tables(src, found, next).value; next <= |all| && all == found + AllChildren(src, all[next..])
    decreases Unseen(found), |found| - next
  {
    hide Entries, WithChildren, Children;
    var all := Tables(src, found, next).value;
    if next == |found| {
      assert all[next..] == [] && found + [] == found;
    } else {
      hide Unseen;
      var children := Children(Entries(src, found[next]).value);
      WithChildrenAdds(src, found, children);
      FewerUnseen(src, found, next);
      ChildrenFollow(src, found + children, next + 1);
      assert all == found + children + AllChildren(src, all[next + 1..]);
      assert all[next..][1..] == all[next + 1..] && all[next] == found[next];
      assert found + (children + AllChildren(src, all[next + 1..])) == all;
    }
  }

  /** Breadth first: the root, then the children of each table in the order of the tables. */
  lemma TablesAreBreadthFirst(src: Block, plan: Plan)
    requires Planned(src, plan)
    ensures plan.tables == [0] + AllChildren(src, plan.tables)
  {
    hide Entries, Tables, Leaves, Strings, Names, Closed, Counted, AllChildren;
    ChildrenFollow(src, [0], 0);
    assert plan.tables[0..] == plan.tables;
  }

  // ----- leaves below tables

  lemma {:induction false} LeavesOfTables(src: Block, table: nat, depth: nat)
    requires Leaves(src, table, depth).Some?
    ensures forall t, e ::
      t in Preorder(src, table, depth) && Entries(src, t).Some? && e in Entries(src, t).value && !Marked(e.target) ==>
        e.target in Leaves(src, table, depth).value
    decreases MAX_DEPTH - depth, 0, 0
  {
    hide Entries, LeavesBelow, PreorderAll, Children;
    OneTable(src, table, depth);
    LeavesOfEntries(src, Entries(src, table).value, depth);
  }

  lemma {:induction false} LeavesOfEntries(src: Block, entries: seq<Entry>, depth: nat)
    requires depth < MAX_DEPTH && LeavesBelow(src, entries, depth).Some?
    ensures forall e :: e in entries && !Marked(e.target) ==> e.target in LeavesBelow(src, entries, depth).value
    ensures forall t, e ::
      t in PreorderAll(src, Children(entries), depth + 1) && Entries(src, t).Some? && e in Entries(src, t).value && !Marked(e.target) ==>
        e.target in LeavesBelow(src, entries, depth).value
    decreases MAX_DEPTH - depth - 1, 1, |entries|
  {
    hide Entries, Leaves, Preorder;
    if entries != [] {
      var e := entries[0];
      assert entries == [e] + entries[1..];
      LeavesOfEntries(src, entries[1..], depth);
      if Marked(e.target) {
        LeavesOfTables(src, Unmarked(e.target), depth + 1);
        assert Children(entries)[1..] == Children(entries[1..]);
      } else {
        assert Children(entries) == Children(entries[1..]);
      }
    }
  }

  /** The records that entries lead to are in the plan too. */
  ghost predicate LeavesKnown(src: Block, plan: Plan) {
    forall t, e :: t in plan.tables && Entries(src, t).Some? && e in Entries(src, t).value && !Marked(e.target) ==> e.target in plan.leaves
  }

  lemma LeavesAreKnown(src: Block, plan: Plan)
    requires Planned(src, plan)
    ensures LeavesKnown(src, plan)
  {
    hide Entries, Preorder, Tables, Leaves, Strings, Names, Closed, Counted;
    TablesArePreorder(src, plan);
    LeavesOfTables(src, 0, 0);
    forall t | t in plan.tables
      ensures t in Preorder(src, 0, 0)
    {
      assert t in multiset(plan.tables);
    }
  }

  // ----- sums over tables

  lemma {:induction false} TotalOfBoth(src: Block, a: seq<nat>, b: seq<nat>)
    ensures Total(src, a + b) == Total(src, a) + Total(src, b)
    decreases |b|
  {
    hide EntryCount;
    if b == [] {
      assert a + b == a;
    } else {
      assert (a + b)[..|a + b| - 1] == a + b[..|b| - 1];
      TotalOfBoth(src, a, b[..|b| - 1]);
    }
  }

  lemma {:induction false} TotalOfSame(src: Block, a: seq<nat>, b: seq<nat>)
    requires multiset(a) == multiset(b)
    ensures Total(src, a) == Total(src, b)
    decreases |a|
  {
    hide EntryCount;
    if a == [] {
      assert |multiset(b)| == 0;
    } else {
      var last := a[|a| - 1];
      Without(a, |a| - 1);
      assert last in multiset(b);
      var i :| 0 <= i < |b| && b[i] == last;
      Without(b, i);
      assert a[..|a| - 1] + a[|a|..] == a[..|a| - 1];
      TotalOfSame(src, a[..|a| - 1], b[..i] + b[i + 1..]);
      TotalOfBoth(src, b[..i], [last] + b[i + 1..]);
      TotalOfBoth(src, [last], b[i + 1..]);
      TotalOfBoth(src, b[..i], b[i + 1..]);
      assert b[..i] + ([last] + b[i + 1..]) == b;
      TotalOfOne(src, last);
    }
  }

  lemma Without(s: seq<nat>, i: nat)
    requires i < |s|
    ensures multiset(s[..i] + s[i + 1..]) == multiset(s) - multiset{s[i]}
  {
    assert s == s[..i] + [s[i]] + s[i + 1..];
  }

  lemma TotalOfOne(src: Block, table: nat)
    ensures Total(src, [table]) == EntryCount(src, table)
  {
    assert Total(src, [table][..0]) == 0;
  }

  // ----- what a walk finds

  /** No table, record or name of these tables goes past `limit`. */
  ghost predicate Within(src: Block, tables: seq<nat>, limit: nat) {
    forall t :: t in tables && Entries(src, t).Some? ==> TableEnd(src, t) <= limit && EntriesWithin(src, Entries(src, t).value, limit)
  }

  ghost predicate EntriesWithin(src: Block, entries: seq<Entry>, limit: nat) {
    forall e :: e in entries ==>
      && (!Marked(e.target) ==> e.target + RECORD_SIZE <= limit)
      && (Marked(e.name) && StringEnd(src, e.name).Some? ==> StringEnd(src, e.name).value <= limit)
  }

  ghost predicate NamesRead(src: Block, tables: seq<nat>) {
    forall t, e :: t in tables && Entries(src, t).Some? && e in Entries(src, t).value && Marked(e.name) ==> StringEnd(src, e.name).Some?
  }

  /** `walked` is what `tree` becomes after these leaves and this many entries. */
  ghost predicate Walked(tree: Tree, walked: Tree, leaves: seq<nat>, entries: nat) {
    && walked.leaves == tree.leaves + leaves && |leaves| <= entries
    && walked.budget + entries == tree.budget && walked.length >= tree.length
    && forall leaf :: leaf in leaves ==> leaf + RECORD_SIZE <= walked.length
  }

  lemma {:induction false} TableWalk(src: Block, table: nat, depth: nat, tree: Tree, limit: nat)
    requires Leaves(src, table, depth).Some? && NamesRead(src, Preorder(src, table, depth))
    requires Total(src, Preorder(src, table, depth)) <= tree.budget
    requires |tree.leaves| < MAX_ENTRIES && |tree.leaves| + tree.budget <= MAX_ENTRIES
    ensures var walked := WalkTable(src, table, depth, tree);
      && walked.Some? && Walked(tree, walked.value, Leaves(src, table, depth).value, Total(src, Preorder(src, table, depth)))
      && Within(src, Preorder(src, table, depth), walked.value.length)
      && (tree.length <= limit && Within(src, Preorder(src, table, depth), limit) ==> walked.value.length <= limit)
    decreases MAX_DEPTH - depth, 0, 0
  {
    hide Entries, LeavesBelow, PreorderAll, Children, EntriesWithin, WalkEntries, Total;
    OneTable(src, table, depth);
    var entries := Entries(src, table).value;
    var below := PreorderAll(src, Children(entries), depth + 1);
    TotalOfBoth(src, [table], below);
    TotalOfOne(src, table);
    assert Preorder(src, table, depth) == [table] + below;
    var started := tree.(length := Max(tree.length, TableEnd(src, table)));
    assert forall t :: t in below ==> t in Preorder(src, table, depth);
    EntriesWalk(src, entries, depth, started, limit);
    WithinMore(src, table, below, entries, WalkEntries(src, entries, depth, started).value.length);
    if tree.length <= limit && Within(src, Preorder(src, table, depth), limit) {
      assert table in Preorder(src, table, depth);
    }
  }

  lemma WithinMore(src: Block, table: nat, below: seq<nat>, entries: seq<Entry>, limit: nat)
    requires Entries(src, table) == Some(entries) && TableEnd(src, table) <= limit
    requires EntriesWithin(src, entries, limit) && Within(src, below, limit)
    ensures Within(src, [table] + below, limit)
  {
    hide Entries, EntriesWithin;
  }

  lemma {:induction false} EntriesWalk(src: Block, entries: seq<Entry>, depth: nat, tree: Tree, limit: nat)
    requires depth < MAX_DEPTH && LeavesBelow(src, entries, depth).Some?
    requires NamesRead(src, PreorderAll(src, Children(entries), depth + 1))
    requires forall e :: e in entries && Marked(e.name) ==> StringEnd(src, e.name).Some?
    requires |entries| + Total(src, PreorderAll(src, Children(entries), depth + 1)) <= tree.budget
    requires |tree.leaves| + tree.budget <= MAX_ENTRIES
    ensures var walked, below := WalkEntries(src, entries, depth, tree), PreorderAll(src, Children(entries), depth + 1);
      && walked.Some? && Walked(tree, walked.value, LeavesBelow(src, entries, depth).value, |entries| + Total(src, below))
      && EntriesWithin(src, entries, walked.value.length) && Within(src, below, walked.value.length)
      && (tree.length <= limit && EntriesWithin(src, entries, limit) && Within(src, below, limit) ==>
            walked.value.length <= limit)
    decreases MAX_DEPTH - depth - 1, 1, |entries|
  {
    hide Entries, Leaves, PreorderAll, Preorder, Children, WalkEntry, Total, NamesRead, Within, EntriesWithin, StringEnd;
    NothingBelow(src, depth, tree.length);
    if entries != [] {
      var e, rest := entries[0], entries[1..];
      var first, below := Below(src, e, depth), PreorderAll(src, Children(rest), depth + 1);
      EntriesBelow(src, entries, depth);
      TotalOfBoth(src, first, below);
      assert e in entries && forall x :: x in rest ==> x in entries;
      NamesReadInParts(src, first, below);
      EntryWalk(src, e, depth, tree, limit);
      var middle := WalkEntry(src, e, depth, tree).value;
      EntriesWalk(src, rest, depth, middle, limit);
      var last := WalkEntries(src, rest, depth, middle).value;
      WithinBoth(src, first, below, last.length);
      WithinBoth(src, first, below, limit);
      WithinGrows(src, first, e, middle.length, last.length);
      EntriesWithinBoth(src, entries, last.length);
      EntriesWithinBoth(src, entries, limit);
      LeavesInParts(src, entries, depth);
      WalkedTwice(tree, middle, last, LeavesOf(src, e, depth), LeavesBelow(src, rest, depth).value, 1 + Total(src, first),
                  |rest| + Total(src, below));
    }
  }

  function Below(src: Block, entry: Entry, depth: nat): seq<nat> {
    if Marked(entry.target) then Preorder(src, Unmarked(entry.target), depth + 1) else []
  }

  function LeavesOf(src: Block, entry: Entry, depth: nat): seq<nat>
    requires Marked(entry.target) ==> Leaves(src, Unmarked(entry.target), depth + 1).Some?
  {
    if Marked(entry.target) then Leaves(src, Unmarked(entry.target), depth + 1).value else [entry.target]
  }

  lemma LeavesInParts(src: Block, entries: seq<Entry>, depth: nat)
    requires depth < MAX_DEPTH && entries != [] && LeavesBelow(src, entries, depth).Some?
    ensures Marked(entries[0].target) ==> Leaves(src, Unmarked(entries[0].target), depth + 1).Some?
    ensures LeavesBelow(src, entries[1..], depth).Some?
    ensures LeavesBelow(src, entries, depth).value == LeavesOf(src, entries[0], depth) + LeavesBelow(src, entries[1..], depth).value
  {
    hide Leaves;
  }

  lemma NothingBelow(src: Block, depth: nat, limit: nat)
    ensures Children([]) == [] && PreorderAll(src, [], depth + 1) == [] && Total(src, []) == 0
    ensures Within(src, [], limit) && EntriesWithin(src, [], limit)
  {
  }

  lemma EntriesBelow(src: Block, entries: seq<Entry>, depth: nat)
    requires entries != []
    ensures PreorderAll(src, Children(entries), depth + 1)
         == Below(src, entries[0], depth) + PreorderAll(src, Children(entries[1..]), depth + 1)
  {
    hide Preorder;
    if Marked(entries[0].target) {
      assert Children(entries)[1..] == Children(entries[1..]);
    } else {
      assert Children(entries) == Children(entries[1..]);
    }
  }

  lemma NamesReadInParts(src: Block, a: seq<nat>, b: seq<nat>)
    ensures NamesRead(src, a + b) == (NamesRead(src, a) && NamesRead(src, b))
  {
    hide Entries, StringEnd;
    assert forall t :: t in a + b <==> t in a || t in b;
  }

  lemma WithinBoth(src: Block, a: seq<nat>, b: seq<nat>, limit: nat)
    ensures Within(src, a + b, limit) == (Within(src, a, limit) && Within(src, b, limit))
  {
    hide Entries, EntriesWithin, TableEnd;
    assert forall t :: t in a + b <==> t in a || t in b;
  }

  lemma EntriesWithinBoth(src: Block, entries: seq<Entry>, limit: nat)
    requires entries != []
    ensures EntriesWithin(src, entries, limit) == (EntriesWithin(src, [entries[0]], limit) && EntriesWithin(src, entries[1..], limit))
  {
    hide StringEnd;
    assert entries == [entries[0]] + entries[1..];
    assert entries[0] in [entries[0]];
  }

  lemma WithinGrows(src: Block, tables: seq<nat>, entry: Entry, limit: nat, more: nat)
    requires Within(src, tables, limit) && EntriesWithin(src, [entry], limit) && limit <= more
    ensures Within(src, tables, more) && EntriesWithin(src, [entry], more)
  {
    hide Entries, TableEnd, StringEnd;
  }

  lemma WalkedTwice(tree: Tree, middle: Tree, last: Tree, first: seq<nat>, second: seq<nat>, m: nat, n: nat)
    requires Walked(tree, middle, first, m) && Walked(middle, last, second, n)
    ensures Walked(tree, last, first + second, m + n)
  {
  }

  lemma {:induction false} EntryWalk(src: Block, entry: Entry, depth: nat, tree: Tree, limit: nat)
    requires depth < MAX_DEPTH && NamesRead(src, Below(src, entry, depth))
    requires Marked(entry.target) ==> Leaves(src, Unmarked(entry.target), depth + 1).Some?
    requires Marked(entry.name) ==> StringEnd(src, entry.name).Some?
    requires 1 + Total(src, Below(src, entry, depth)) <= tree.budget && |tree.leaves| + tree.budget <= MAX_ENTRIES
    ensures var walked, below := WalkEntry(src, entry, depth, tree), Below(src, entry, depth);
      && walked.Some? && Walked(tree, walked.value, LeavesOf(src, entry, depth), 1 + Total(src, below))
      && EntriesWithin(src, [entry], walked.value.length) && Within(src, below, walked.value.length)
      && (tree.length <= limit && EntriesWithin(src, [entry], limit) && Within(src, below, limit) ==>
            walked.value.length <= limit)
    decreases MAX_DEPTH - depth - 1, 1, 0
  {
    hide Entries, Leaves, Preorder, Total, NamesRead, Within, StringEnd, WalkTable;
    NothingBelow(src, depth, limit);
    NothingBelow(src, depth, tree.length);
    var nameEnd := if Marked(entry.name) then StringEnd(src, entry.name).value else 0;
    var length := Max(tree.length, nameEnd);
    assert entry in [entry];
    if Marked(entry.target) {
      TableWalk(src, Unmarked(entry.target), depth + 1, Tree(length, tree.leaves, tree.budget - 1), limit);
    } else {
      NothingBelow(src, depth, Max(length, entry.target + RECORD_SIZE));
    }
  }
}
