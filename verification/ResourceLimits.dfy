/** A resource tree that is laid out, although walking it fails: its root has too many entries. */
module ResourceLimits {
  import opened Wrappers
  import opened Buffers
  import opened Bytes
  import opened Resources
  import opened ResourceRelayout

  const WIDE := MAX_ENTRIES + 1

  /** A root that counts 65535 entries with names and two without; all of them are zero. */
  function WideRoot(): (src: Block)
    ensures |src.bytes| == TABLE_SIZE + ENTRY_SIZE * WIDE && src.start == 0
  {
    Block(seq(TABLE_SIZE + ENTRY_SIZE * WIDE, at => WideRootByte(at)), 0)
  }

  function WideRootByte(at: int): byte {
    match at
    case 12 => 255
    case 13 => 255
    case 14 => 2
    case _ => 0
  }

  lemma WideRootFields()
    ensures var bytes := WideRoot().bytes;
      && ReadU16(bytes, NAMED_COUNT_OFFSET) == Some(65535) && ReadU16(bytes, ID_COUNT_OFFSET) == Some(2)
      && forall at :: TABLE_SIZE <= at < |bytes| ==> bytes[at] == 0
  {
  }

  function Blanks(count: nat): (r: seq<Entry>)
    ensures |r| == count
  {
    seq(count, _ => Entry(0, 0))
  }

  lemma {:induction false} BlanksRead(bytes: seq<byte>, at: nat, count: nat)
    requires at + ENTRY_SIZE * count <= |bytes| && forall i :: at <= i < |bytes| ==> bytes[i] == 0
    ensures ReadEntries(bytes, at, count) == Some(Blanks(count))
    decreases count
  {
    if count > 0 {
      BlanksRead(bytes, at + ENTRY_SIZE, count - 1);
      assert [Entry(0, 0)] + Blanks(count - 1) == Blanks(count);
    }
  }

  lemma WideRootEntries()
    ensures Entries(WideRoot(), 0) == Some(Blanks(WIDE))
  {
    hide WideRoot, ReadEntries, ReadU16;
    WideRootFields();
    BlanksRead(WideRoot().bytes, TABLE_SIZE, WIDE);
  }

  lemma BlanksTail(count: nat)
    requires count > 0
    ensures Blanks(count)[0] == Entry(0, 0) && Blanks(count)[1..] == Blanks(count - 1)
  {
  }

  lemma {:induction false} BlanksHaveNoChildren(count: nat)
    ensures Children(Blanks(count)) == [] && MarkedNames(Blanks(count)) == []
    decreases count
  {
    if count > 0 {
      BlanksTail(count);
      BlanksHaveNoChildren(count - 1);
    }
  }

  lemma {:induction false} BlanksAreLeaves(src: Block, count: nat)
    ensures LeavesBelow(src, Blanks(count), 0).Some? && |LeavesBelow(src, Blanks(count), 0).value| == count
    ensures forall leaf :: leaf in LeavesBelow(src, Blanks(count), 0).value ==> leaf == 0
    decreases count
  {
    hide Leaves, Blanks;
    if count > 0 {
      BlanksTail(count);
      BlanksAreLeaves(src, count - 1);
      LeafFirst(src, Blanks(count));
    } else {
      assert Blanks(0) == [];
    }
  }

  lemma LeafFirst(src: Block, entries: seq<Entry>)
    requires entries != [] && entries[0] == Entry(0, 0) && LeavesBelow(src, entries[1..], 0).Some?
    ensures LeavesBelow(src, entries, 0) == Some([0] + LeavesBelow(src, entries[1..], 0).value)
  {
    hide Leaves;
  }

  /** The root is the only table, each entry a leaf at zero, and no text is used. */
  lemma WideRootPlan() returns (plan: Plan)
    ensures PlanOf(WideRoot()) == Some(plan) && plan.tables == [0] && plan.strings == []
    ensures |plan.leaves| == WIDE && forall leaf :: leaf in plan.leaves ==> leaf == 0
  {
    hide WideRoot, Entries, Blanks, Children, MarkedNames, LeavesBelow;
    var src := WideRoot();
    WideRootEntries();
    BlanksHaveNoChildren(WIDE);
    BlanksAreLeaves(src, WIDE);
    assert [0] + [] == [0];
    assert Tables(src, [0], 1) == Some([0]) && Tables(src, [0], 0) == Some([0]);
    NoNames(src);
    plan := Plan([0], Leaves(src, 0, 0).value, []);
  }

  lemma NoNames(src: Block)
    requires Entries(src, 0).Some? && MarkedNames(Entries(src, 0).value) == []
    ensures Names(src, [0]) == [] && Strings(src, Names(src, [0])) == Some([])
  {
    hide Entries, MarkedNames;
    assert [0][..0] == [];
    assert Names(src, []) == [];
    assert Names(src, [0]) == [] + [];
  }

  lemma WideRootIsWritable(plan: Plan)
    requires plan.tables == [0] && plan.strings == [] && |plan.leaves| == WIDE && forall leaf :: leaf in plan.leaves ==> leaf == 0
    ensures Writable(WideRoot(), plan) && |LayoutBytes(WideRoot(), plan)| <= FLAG
  {
    hide WideRoot, Entries, Last;
    var src := WideRoot();
    WideRootEntries();
    assert [0][..0] == [];
    assert TablesSize(src, []) == 0 && TablesSize(src, [0]) == TABLE_SIZE + ENTRY_SIZE * WIDE;
    assert LeafAt(src, plan, 0) < U32;
    forall e | e in Blanks(WIDE)
      ensures EntryFits(src, plan, e)
    {
    }
    assert |TablesBytes(src, plan, 0)| == 0;
    assert |TablesBytes(src, plan, 1)| == TABLE_SIZE + ENTRY_SIZE * WIDE;
  }

  /** The tree is laid out, and what it is laid out to cannot be walked. */
  lemma WideRootIsLaidOut()
    ensures LinkerLayout(WideRoot()).Some? && EntryCount(WideRoot(), 0) > MAX_ENTRIES
    ensures WalkResources(Block(LinkerLayout(WideRoot()).value.bytes, 0)).None?
  {
    hide WideRoot, Entries, PlanOf, Writable, LayoutBytes, LeafPlaces, WalkResources;
    var plan := WideRootPlan();
    WideRootEntries();
    WideRootIsWritable(plan);
    WalkOfTheLayout(WideRoot());
  }

  // ----- depth

  /** The entry has a name, and leads to a record and not to a table. */
  predicate EndsHere(src: Block, e: Entry) {
    ReadLabel(src, e.name).Some? && !Marked(e.target) && ReadRecord(src, e.target).Some?
  }

  lemma LastTarget(src: Block, target: nat)
    ensures ReadTarget(src, target, 3).Some? <==> !Marked(target) && ReadRecord(src, target).Some?
  {
    hide ReadRecord;
    if Marked(target) {
      assert ReadTable(src, Unmarked(target), 4).None?;
    }
  }

  lemma {:induction false} LastBranches(src: Block, entries: seq<Entry>)
    ensures ReadBranches(src, entries, 3).Some? <==> forall e :: e in entries ==> EndsHere(src, e)
    decreases |entries|
  {
    hide ReadLabel, ReadRecord, ReadTarget;
    if entries != [] {
      LastBranches(src, entries[1..]);
      LastTarget(src, entries[0].target);
      var first, rest := entries[0], entries[1..];
      assert ReadBranches(src, entries, 3).Some? <==> EndsHere(src, first) && ReadBranches(src, rest, 3).Some?;
      assert forall e :: e in entries <==> e == first || e in rest;
    }
  }

  /** A tree is four tables deep at most: the fourth is read if and only if its entries all lead to records. */
  lemma FourthTableIsLast(src: Block, table: nat)
    ensures ReadTable(src, table, 3).Some? <==>
      && Entries(src, table).Some? && ReadRecord(src, table).Some?
      && forall e :: e in Entries(src, table).value ==> EndsHere(src, e)
  {
    hide ReadBranches, ReadRecord, EndsHere;
    if Entries(src, table).Some? {
      LastBranches(src, Entries(src, table).value);
    }
  }
}
