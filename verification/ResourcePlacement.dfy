/**
  * Laying a resource tree out at the start of its section, with the data of its leaves behind it:
  * each record is told where its data went.
  */
module ResourcePlacement {
  import opened Wrappers
  import opened Buffers
  import opened Bytes
  import opened Resources
  import opened ResourceBuilder

  const SIZE_OFFSET := 4
  const SIZE_ALIGNMENT := 8

  /** Microsoft's linkers align leaves to 8 bytes, Borland's to 4; Visual Basic's write the last one first. */
  datatype Style = Microsoft | Borland | VisualBasic {
    function FirstAlignment(): nat {
      match this
      case Microsoft => 8
      case Borland => 4
      case VisualBasic => 16
    }

    function Alignment(): (r: nat)
      ensures r == 4 || r == 8
    {
      if Microsoft? then 8 else 4
    }
  }

  /** A record's place in the laid-out tree, and the data it led to. */
  datatype Item = Item(entry: nat, data: seq<byte>)

  // ----- what is placed

  function DataOf(from: seq<byte>, tree: seq<byte>, entry: nat): Option<seq<byte>> {
    var rva :- ReadU32(tree, entry);
    var size :- ReadU32(tree, entry + SIZE_OFFSET);
    if rva + size <= |from| then Some(from[rva..rva + size]) else None
  }

  function ItemsOf(from: seq<byte>, tree: seq<byte>, entries: seq<nat>): Option<seq<Item>> {
    if entries == [] then Some([])
    else
      var data :- DataOf(from, tree, entries[0]);
      var rest :- ItemsOf(from, tree, entries[1..]);
      Some([Item(entries[0], data)] + rest)
  }

  function Reversed(items: seq<Item>): (r: seq<Item>)
    ensures |r| == |items|
  {
    if items == [] then [] else Reversed(items[1..]) + [items[0]]
  }

  lemma {:induction false} ReversedAt(items: seq<Item>, i: nat)
    requires i < |items|
    ensures Reversed(items)[|items| - 1 - i] == items[i]
  {
    if i > 0 {
      ReversedAt(items[1..], i - 1);
    }
  }

  function InOrder(style: Style, items: seq<Item>): (r: seq<Item>)
    ensures |r| == |items|
  {
    if style.VisualBasic? then Reversed(items) else items
  }

  // ----- placing

  datatype Placed = Placed(tree: seq<byte>, places: seq<nat>, cursor: nat)

  /** Each item goes to the next aligned address, and its record is told. */
  function Place(tree: seq<byte>, items: seq<Item>, cursor: nat, alignment: nat): (r: Option<Placed>)
    requires alignment > 0
    ensures r.Some? ==> |r.value.tree| == |tree| && |r.value.places| == |items| && r.value.cursor >= cursor
    decreases |items|
  {
    if items == [] then Some(Placed(tree, [], cursor))
    else
      var at := cursor + Gap(cursor, alignment);
      if at >= U32 || items[0].entry + 4 > |tree| then None
      else
        var rest :- Place(Put(tree, items[0].entry, U32Bytes(at)), items[1..], at + |items[0].data|, alignment);
        Some(rest.(places := [at] + rest.places))
  }

  /** The data of each item, copied to its place in the section that starts at `base`. */
  function Fill(region: seq<byte>, items: seq<Item>, places: seq<nat>, base: nat): (r: Option<seq<byte>>)
    requires |items| == |places|
    ensures r.Some? ==> |r.value| == |region|
    decreases |items|
  {
    if items == [] then Some(region)
    else if places[0] < base || places[0] - base + |items[0].data| > |region| then None
    else Fill(Put(region, places[0] - base, items[0].data), items[1..], places[1..], base)
  }

  /** Where the leaves behind the tree start. */
  function FirstLeaf(style: Style, start: nat, size: nat): (r: nat)
    ensures r >= start + size
  {
    start + size + Gap(start + size, style.FirstAlignment())
  }

  datatype Laying = Laying(items: seq<Item>, placed: Placed)

  function LayingOf(src: Block, from: seq<byte>, style: Style, start: nat): (r: Option<Laying>)
    ensures r.Some? ==> |r.value.placed.places| == |r.value.items| && r.value.placed.cursor >= start + |r.value.placed.tree|
  {
    var layout :- LinkerLayout(src);
    var items :- ItemsOf(from, layout.bytes, layout.leaves);
    var ordered := InOrder(style, items);
    var placed :- Place(layout.bytes, ordered, FirstLeaf(style, start, |layout.bytes|), style.Alignment());
    Some(Laying(ordered, placed))
  }

  function RegionOf(laying: Laying, start: nat, end: nat): Option<seq<byte>>
    requires |laying.placed.places| == |laying.items| && laying.placed.cursor >= start + |laying.placed.tree|
  {
    if laying.placed.cursor > end then None
    else Fill(Put(Zeros(end - start), 0, laying.placed.tree), laying.items, laying.placed.places, start)
  }

  /** The section's new bytes, or nothing if a leaf cannot be read or they do not fit. */
  function Relaid(src: Block, from: seq<byte>, style: Style, start: nat, end: nat): Option<seq<byte>> {
    var laying :- LayingOf(src, from, style, start);
    RegionOf(laying, start, end)
  }

  // ----- where the leaves go

  lemma NextMultiple(cursor: nat, alignment: nat)
    requires alignment == 4 || alignment == 8
    ensures (cursor + Gap(cursor, alignment)) % alignment == 0
  {
  }

  /** One behind the other, aligned, between the cursors. */
  ghost predicate Ranged(items: seq<Item>, places: seq<nat>, from: nat, to: nat, alignment: nat)
    requires alignment > 0
  {
    && |items| == |places|
    && (forall i :: 0 <= i < |items| ==> from <= places[i] && places[i] % alignment == 0 && places[i] < U32)
    && (forall i :: 0 <= i < |items| ==> places[i] + |items[i].data| <= to)
    && (forall i, j :: 0 <= i < j < |items| ==> places[i] + |items[i].data| <= places[j])
  }

  lemma RangedBehind(items: seq<Item>, places: seq<nat>, from: nat, at: nat, to: nat, alignment: nat)
    requires alignment > 0 && items != [] && from <= at < U32 && at % alignment == 0
    requires Ranged(items[1..], places, at + |items[0].data|, to, alignment) && at + |items[0].data| <= to
    ensures Ranged(items, [at] + places, from, to, alignment)
  {
    var all := [at] + places;
    forall i | 0 < i < |items|
      ensures at + |items[0].data| <= all[i] && all[i] % alignment == 0 && all[i] < U32 && all[i] + |items[i].data| <= to
    {
      assert items[i] == items[1..][i - 1];
    }
    forall i, j | 0 < i < j < |items|
      ensures all[i] + |items[i].data| <= all[j]
    {
      assert items[i] == items[1..][i - 1] && all[i] == places[i - 1] && all[j] == places[j - 1];
    }
  }

  lemma {:induction false} PlacesAreRanged(tree: seq<byte>, items: seq<Item>, cursor: nat, alignment: nat)
    requires (alignment == 4 || alignment == 8) && Place(tree, items, cursor, alignment).Some?
    ensures var placed := Place(tree, items, cursor, alignment).value;
      Ranged(items, placed.places, cursor, placed.cursor, alignment)
    decreases |items|
  {
    hide Put, U32Bytes, Gap;
    if items != [] {
      hide Ranged;
      var at := cursor + Gap(cursor, alignment);
      var told := Put(tree, items[0].entry, U32Bytes(at));
      NextMultiple(cursor, alignment);
      PlacesAreRanged(told, items[1..], at + |items[0].data|, alignment);
      var rest := Place(told, items[1..], at + |items[0].data|, alignment).value;
      RangedBehind(items, rest.places, cursor, at, rest.cursor, alignment);
    }
  }

  predicate InEntry(item: Item, at: nat) {
    item.entry <= at < item.entry + 4
  }

  /** Of the tree, only the addresses in the records change. */
  lemma {:induction false} TreeStays(tree: seq<byte>, items: seq<Item>, cursor: nat, alignment: nat, at: nat)
    requires alignment > 0 && Place(tree, items, cursor, alignment).Some? && at < |tree|
    requires forall item :: item in items ==> !InEntry(item, at)
    ensures Place(tree, items, cursor, alignment).value.tree[at] == tree[at]
    decreases |items|
  {
    hide Put, U32Bytes, Gap;
    if items != [] {
      var address := cursor + Gap(cursor, alignment);
      assert items[0] in items && forall item :: item in items[1..] ==> item in items;
      PutTouches(tree, items[0].entry, U32Bytes(address));
      TreeStays(Put(tree, items[0].entry, U32Bytes(address)), items[1..], address + |items[0].data|, alignment, at);
    }
  }

  /** A record holds the place of the last leaf that has it. */
  lemma {:induction false} RecordTells(tree: seq<byte>, items: seq<Item>, cursor: nat, alignment: nat, i: nat)
    requires alignment > 0 && Place(tree, items, cursor, alignment).Some? && i < |items|
    requires forall j :: i < j < |items| ==> items[j].entry + 4 <= items[i].entry || items[i].entry + 4 <= items[j].entry
    ensures ReadU32(Place(tree, items, cursor, alignment).value.tree, items[i].entry)
         == Some(Place(tree, items, cursor, alignment).value.places[i])
    decreases |items|
  {
    hide Put, U32Bytes, Gap, U32At;
    var address := cursor + Gap(cursor, alignment);
    var told := Put(tree, items[0].entry, U32Bytes(address));
    if i == 0 {
      PutTouches(tree, items[0].entry, U32Bytes(address));
      assert told[items[0].entry..items[0].entry + 4] == U32Bytes(address);
      U32RoundTrip(told, items[0].entry, address);
      var rest := Place(told, items[1..], address + |items[0].data|, alignment).value;
      forall at | items[0].entry <= at < items[0].entry + 4
        ensures rest.tree[at] == told[at]
      {
        forall item | item in items[1..]
          ensures !InEntry(item, at)
        {
          var j :| 0 <= j < |items[1..]| && items[1..][j] == item;
          assert items[j + 1] == item;
        }
        TreeStays(told, items[1..], address + |items[0].data|, alignment, at);
      }
      SameU32(rest.tree, told, items[0].entry);
    } else {
      RecordTells(told, items[1..], address + |items[0].data|, alignment, i - 1);
    }
  }

  lemma SameU32(a: seq<byte>, b: seq<byte>, at: nat)
    requires at + 4 <= |a| == |b| && forall k :: at <= k < at + 4 ==> a[k] == b[k]
    ensures ReadU32(a, at) == ReadU32(b, at)
  {
  }

  // ----- what the section holds

  predicate InData(item: Item, place: nat, base: nat, at: nat) {
    place <= base + at < place + |item.data|
  }

  predicate OutOfData(items: seq<Item>, places: seq<nat>, base: nat, at: nat)
    requires |items| == |places|
  {
    forall i :: 0 <= i < |items| ==> !InData(items[i], places[i], base, at)
  }

  lemma {:induction false} OthersStay(region: seq<byte>, items: seq<Item>, places: seq<nat>, base: nat, at: nat)
    requires |items| == |places| && Fill(region, items, places, base).Some? && at < |region|
    requires OutOfData(items, places, base, at)
    ensures Fill(region, items, places, base).value[at] == region[at]
    decreases |items|
  {
    hide Put;
    if items != [] {
      PutTouches(region, places[0] - base, items[0].data);
      OthersStay(Put(region, places[0] - base, items[0].data), items[1..], places[1..], base, at);
    }
  }

  lemma RangedAhead(items: seq<Item>, places: seq<nat>, from: nat, to: nat, alignment: nat)
    requires alignment > 0 && Ranged(items, places, from, to, alignment) && items != []
    ensures from <= places[0] && places[0] + |items[0].data| <= to
    ensures Ranged(items[1..], places[1..], places[0] + |items[0].data|, to, alignment)
  {
    forall i | 0 <= i < |items[1..]|
      ensures var at := places[1..][i];
        places[0] + |items[0].data| <= at && at % alignment == 0 && at < U32 && at + |items[1..][i].data| <= to
    {
      assert places[1..][i] == places[i + 1] && items[1..][i] == items[i + 1];
    }
    forall i, j | 0 <= i < j < |items[1..]|
      ensures places[1..][i] + |items[1..][i].data| <= places[1..][j]
    {
      assert places[1..][i] == places[i + 1] && items[1..][i] == items[i + 1] && places[1..][j] == places[j + 1];
    }
  }

  lemma ClearAhead(items: seq<Item>, places: seq<nat>, base: nat, from: nat, to: nat, alignment: nat, at: nat)
    requires alignment > 0 && Ranged(items, places, from, to, alignment) && base + at < from
    ensures OutOfData(items, places, base, at)
  {
  }

  lemma FirstStands(region: seq<byte>, items: seq<Item>, places: seq<nat>, base: nat, to: nat, alignment: nat)
    requires alignment > 0 && |items| == |places| && items != []
    requires Ranged(items[1..], places[1..], places[0] + |items[0].data|, to, alignment)
    requires Fill(region, items, places, base).Some?
    ensures StartsAt(Fill(region, items, places, base).value, places[0] - base, items[0].data)
  {
    hide Put, OutOfData, Ranged;
    var put := Put(region, places[0] - base, items[0].data);
    PutTouches(region, places[0] - base, items[0].data);
    forall at | places[0] - base <= at < places[0] - base + |items[0].data|
      ensures Fill(region, items, places, base).value[at] == items[0].data[at - (places[0] - base)]
    {
      ClearAhead(items[1..], places[1..], base, places[0] + |items[0].data|, to, alignment, at);
      OthersStay(put, items[1..], places[1..], base, at);
    }
  }

  lemma {:induction false} DataStands(
      region: seq<byte>, items: seq<Item>, places: seq<nat>, base: nat, from: nat, to: nat, alignment: nat, i: nat)
    requires alignment > 0 && |items| == |places| && Ranged(items, places, from, to, alignment) && base <= from && i < |items|
    requires Fill(region, items, places, base).Some?
    ensures base <= places[i]
    ensures StartsAt(Fill(region, items, places, base).value, places[i] - base, items[i].data)
    decreases |items|
  {
    hide Put, Ranged, StartsAt;
    RangedAhead(items, places, from, to, alignment);
    if i == 0 {
      FirstStands(region, items, places, base, to, alignment);
    } else {
      var put := Put(region, places[0] - base, items[0].data);
      DataStands(put, items[1..], places[1..], base, places[0] + |items[0].data|, to, alignment, i - 1);
    }
  }

  lemma {:induction false} FillSucceeds(
      region: seq<byte>, items: seq<Item>, places: seq<nat>, base: nat, from: nat, to: nat, alignment: nat)
    requires alignment > 0 && |items| == |places| && Ranged(items, places, from, to, alignment)
    requires base <= from && to <= base + |region|
    ensures Fill(region, items, places, base).Some?
    decreases |items|
  {
    hide Put, Ranged;
    if items != [] {
      RangedAhead(items, places, from, to, alignment);
      var put := Put(region, places[0] - base, items[0].data);
      FillSucceeds(put, items[1..], places[1..], base, places[0] + |items[0].data|, to, alignment);
    }
  }

  /** Leaves one behind the other, aligned, behind the tree. */
  ghost predicate WellLaid(laying: Laying, start: nat, alignment: nat)
    requires alignment > 0
  {
    && |laying.placed.places| == |laying.items| && laying.placed.cursor >= start + |laying.placed.tree|
    && Ranged(laying.items, laying.placed.places, start + |laying.placed.tree|, laying.placed.cursor, alignment)
  }

  /** The tree, each leaf's data at its place, and zeros. */
  ghost predicate Holds(region: seq<byte>, laying: Laying, start: nat)
    requires |laying.placed.places| == |laying.items|
  {
    && StartsAt(region, 0, laying.placed.tree)
    && (forall i :: 0 <= i < |laying.items| ==>
          start <= laying.placed.places[i] && StartsAt(region, laying.placed.places[i] - start, laying.items[i].data))
    && (forall at :: |laying.placed.tree| <= at < |region| && OutOfData(laying.items, laying.placed.places, start, at) ==> region[at] == 0)
  }

  lemma LayingIsWell(src: Block, from: seq<byte>, style: Style, start: nat)
    requires LayingOf(src, from, style, start).Some?
    ensures WellLaid(LayingOf(src, from, style, start).value, start, style.Alignment())
  {
    hide LinkerLayout, ItemsOf, Place, InOrder;
    var layout := LinkerLayout(src).value;
    var laying := LayingOf(src, from, style, start).value;
    PlacesAreRanged(layout.bytes, laying.items, FirstLeaf(style, start, |layout.bytes|), style.Alignment());
  }

  lemma TreeInFront(blank: seq<byte>, region: seq<byte>, laying: Laying, start: nat, alignment: nat)
    requires alignment > 0 && WellLaid(laying, start, alignment) && |laying.placed.tree| <= |blank|
    requires Fill(blank, laying.items, laying.placed.places, start) == Some(region)
    ensures forall at :: 0 <= at < |region| && (at < |laying.placed.tree| || OutOfData(laying.items, laying.placed.places, start, at)) ==>
              region[at] == blank[at]
  {
    hide Fill;
    forall at | 0 <= at < |region| && (at < |laying.placed.tree| || OutOfData(laying.items, laying.placed.places, start, at))
      ensures region[at] == blank[at]
    {
      OthersStay(blank, laying.items, laying.placed.places, start, at);
    }
  }

  lemma DataBehind(blank: seq<byte>, region: seq<byte>, laying: Laying, start: nat, alignment: nat)
    requires alignment > 0 && WellLaid(laying, start, alignment)
    requires Fill(blank, laying.items, laying.placed.places, start) == Some(region)
    ensures forall i :: 0 <= i < |laying.items| ==>
              start <= laying.placed.places[i] && StartsAt(region, laying.placed.places[i] - start, laying.items[i].data)
  {
    hide Fill;
    var first := start + |laying.placed.tree|;
    forall i | 0 <= i < |laying.items|
      ensures start <= laying.placed.places[i] && StartsAt(region, laying.placed.places[i] - start, laying.items[i].data)
    {
      assert first <= laying.placed.places[i];
      DataStands(blank, laying.items, laying.placed.places, start, first, laying.placed.cursor, alignment, i);
    }
  }

  lemma RegionHolds(laying: Laying, start: nat, end: nat, alignment: nat)
    requires alignment > 0 && WellLaid(laying, start, alignment) && laying.placed.cursor <= end
    ensures RegionOf(laying, start, end).Some? && |RegionOf(laying, start, end).value| == end - start
    ensures Holds(RegionOf(laying, start, end).value, laying, start)
  {
    hide Fill, Put, Ranged, OutOfData;
    var size, zeros := |laying.placed.tree|, Zeros(end - start);
    var blank := Put(zeros, 0, laying.placed.tree);
    PutTouches(zeros, 0, laying.placed.tree);
    FillSucceeds(blank, laying.items, laying.placed.places, start, start + size, laying.placed.cursor, alignment);
    var region := RegionOf(laying, start, end).value;
    TreeInFront(blank, region, laying, start, alignment);
    DataBehind(blank, region, laying, start, alignment);
  }

  /**
    * The leaves are placed exactly when they fit. Each one's data then stands in the section, aligned,
    * behind the tree and clear of the other leaves; the tree stands in front, and the rest is zero.
    */
  lemma LeavesArePlaced(src: Block, from: seq<byte>, style: Style, start: nat, end: nat)
    requires LayingOf(src, from, style, start).Some?
    ensures var laying := LayingOf(src, from, style, start).value;
      && WellLaid(laying, start, style.Alignment())
      && (Relaid(src, from, style, start, end).Some? <==> laying.placed.cursor <= end)
      && (Relaid(src, from, style, start, end).Some? ==> Holds(Relaid(src, from, style, start, end).value, laying, start))
  {
    hide LayingOf, WellLaid, Holds, RegionOf;
    var laying := LayingOf(src, from, style, start).value;
    LayingIsWell(src, from, style, start);
    if laying.placed.cursor <= end {
      RegionHolds(laying, start, end, style.Alignment());
    } else {
      NoRoom(laying, start, end);
    }
  }

  lemma NoRoom(laying: Laying, start: nat, end: nat)
    requires |laying.placed.places| == |laying.items| && laying.placed.cursor >= start + |laying.placed.tree|
    requires laying.placed.cursor > end
    ensures RegionOf(laying, start, end).None?
  {
  }

  /** Of the laid-out tree only the addresses in the records change, and each tells where its leaf went. */
  lemma RecordsAreTold(src: Block, from: seq<byte>, style: Style, start: nat, i: nat)
    requires LayingOf(src, from, style, start).Some? && i < |LayingOf(src, from, style, start).value.items|
    requires var items := LayingOf(src, from, style, start).value.items;
      forall j :: i < j < |items| ==> items[j].entry + 4 <= items[i].entry || items[i].entry + 4 <= items[j].entry
    ensures var laying := LayingOf(src, from, style, start).value;
      && i < |laying.placed.places|
      && ReadU32(laying.placed.tree, laying.items[i].entry) == Some(laying.placed.places[i])
      && LinkerLayout(src).Some? && |laying.placed.tree| == |LinkerLayout(src).value.bytes|
      && forall at :: 0 <= at < |laying.placed.tree| && (forall item :: item in laying.items ==> !InEntry(item, at)) ==>
           laying.placed.tree[at] == LinkerLayout(src).value.bytes[at]
  {
    hide LinkerLayout, ItemsOf, Place, InOrder, ReadU32;
    var layout := LinkerLayout(src).value;
    var laying := LayingOf(src, from, style, start).value;
    var first := FirstLeaf(style, start, |layout.bytes|);
    RecordTells(layout.bytes, laying.items, first, style.Alignment(), i);
    forall at | 0 <= at < |laying.placed.tree| && forall item :: item in laying.items ==> !InEntry(item, at)
      ensures laying.placed.tree[at] == layout.bytes[at]
    {
      TreeStays(layout.bytes, laying.items, first, style.Alignment(), at);
    }
  }

  // ----- the order and the gaps

  /** The lowest multiple that is not below. */
  predicate IsNext(at: nat, from: nat, alignment: nat)
    requires alignment > 0
  {
    from <= at < from + alignment && at % alignment == 0
  }

  lemma GapLeads(from: nat, alignment: nat)
    requires alignment == 4 || alignment == 8 || alignment == 16
    ensures IsNext(from + Gap(from, alignment), from, alignment)
  {
    if alignment == 16 {
      assert from % 16 != 0 ==> (from + (16 - from % 16)) % 16 == 0;
    }
  }

  /** Each place is the next from the end of the one before it. */
  ghost predicate Stepwise(items: seq<Item>, places: seq<nat>, from: nat, to: nat, alignment: nat)
    requires alignment > 0
  {
    && |items| == |places| && (items != [] ==> IsNext(places[0], from, alignment))
    && (forall i :: 0 < i < |items| ==> IsNext(places[i], places[i - 1] + |items[i - 1].data|, alignment))
    && to == if items == [] then from else places[|items| - 1] + |items[|items| - 1].data|
  }

  lemma StepwiseBehind(items: seq<Item>, places: seq<nat>, from: nat, at: nat, to: nat, alignment: nat)
    requires alignment > 0 && items != [] && IsNext(at, from, alignment)
    requires Stepwise(items[1..], places, at + |items[0].data|, to, alignment)
    ensures Stepwise(items, [at] + places, from, to, alignment)
  {
    hide IsNext;
    var all := [at] + places;
    forall i | 0 < i < |items|
      ensures IsNext(all[i], all[i - 1] + |items[i - 1].data|, alignment)
    {
      if i > 1 {
        assert items[i - 1] == items[1..][i - 2] && all[i] == places[i - 1] && all[i - 1] == places[i - 2];
      }
    }
  }

  lemma {:induction false} PlacesAreNext(tree: seq<byte>, items: seq<Item>, cursor: nat, alignment: nat)
    requires (alignment == 4 || alignment == 8) && Place(tree, items, cursor, alignment).Some?
    ensures var placed := Place(tree, items, cursor, alignment).value;
      Stepwise(items, placed.places, cursor, placed.cursor, alignment)
    decreases |items|
  {
    hide Put, U32Bytes, Gap, IsNext;
    if items != [] {
      hide Stepwise;
      var at := cursor + Gap(cursor, alignment);
      var told := Put(tree, items[0].entry, U32Bytes(at));
      GapLeads(cursor, alignment);
      PlacesAreNext(told, items[1..], at + |items[0].data|, alignment);
      var rest := Place(told, items[1..], at + |items[0].data|, alignment).value;
      StepwiseBehind(items, rest.places, cursor, at, rest.cursor, alignment);
    }
  }

  /**
    * Microsoft's leaves start at the next multiple of 8 behind the tree and behind each other, Borland's
    * at the next multiple of 4; Visual Basic's are written from the last to the first, the first of them
    * at a multiple of 16 and each other one at a multiple of 4.
    */
  lemma LeavesAreInOrder(src: Block, from: seq<byte>, style: Style, start: nat)
    requires LayingOf(src, from, style, start).Some?
    ensures var laying := LayingOf(src, from, style, start).value;
      var items, places, leaves := laying.items, laying.placed.places, LinkerLayout(src).value.leaves;
      && |items| == |places| == |leaves|
      && (forall i :: 0 <= i < |items| ==> items[i].entry == leaves[if style.VisualBasic? then |leaves| - 1 - i else i])
      && (items != [] ==>
            IsNext(places[0], start + |laying.placed.tree|, if style.Microsoft? then 8 else if style.Borland? then 4 else 16))
      && (forall i :: 0 < i < |items| ==>
            IsNext(places[i], places[i - 1] + |items[i - 1].data|, if style.Microsoft? then 8 else 4))
      && (items != [] ==> laying.placed.cursor == places[|items| - 1] + |items[|items| - 1].data|)
  {
    hide LinkerLayout, ItemsOf, Place, IsNext, InOrder, Gap;
    var layout := LinkerLayout(src).value;
    var laying := LayingOf(src, from, style, start).value;
    var items := ItemsOf(from, layout.bytes, layout.leaves).value;
    ItemsCover(from, layout.bytes, layout.leaves);
    OrderIs(style, items);
    PlacesAreNext(layout.bytes, laying.items, FirstLeaf(style, start, |layout.bytes|), style.Alignment());
    if items != [] {
      FirstIsNext(style, start, |layout.bytes|, laying.placed.places[0]);
    }
  }

  lemma OrderIs(style: Style, items: seq<Item>)
    ensures forall i :: 0 <= i < |items| ==> InOrder(style, items)[i] == items[if style.VisualBasic? then |items| - 1 - i else i]
  {
    hide Reversed;
    forall i | 0 <= i < |items| && style.VisualBasic?
      ensures InOrder(style, items)[i] == items[|items| - 1 - i]
    {
      ReversedAt(items, |items| - 1 - i);
    }
  }

  lemma FirstIsNext(style: Style, start: nat, size: nat, at: nat)
    requires IsNext(at, FirstLeaf(style, start, size), style.Alignment())
    ensures IsNext(at, start + size, if style.Microsoft? then 8 else if style.Borland? then 4 else 16)
  {
    hide Gap;
    var first := FirstLeaf(style, start, size);
    GapLeads(start + size, style.FirstAlignment());
    if style.VisualBasic? {
      SixteenthIsFourth(first);
      SameMultiple(at, first, 4);
    } else if style.Microsoft? {
      SameMultiple(at, first, 8);
    } else {
      SameMultiple(at, first, 4);
    }
  }

  lemma SixteenthIsFourth(at: nat)
    requires at % 16 == 0
    ensures at % 4 == 0
  {
    assert at == 4 * (4 * (at / 16));
  }

  lemma SameMultiple(at: nat, first: nat, alignment: nat)
    requires (alignment == 4 || alignment == 8) && IsNext(at, first, alignment) && first % alignment == 0
    ensures at == first
  {
    if alignment == 4 {
      assert at - first == 4 * (at / 4 - first / 4);
    } else {
      assert at - first == 8 * (at / 8 - first / 8);
    }
  }

  // ----- every record leads to its data

  lemma {:induction false} ItemsAre(from: seq<byte>, tree: seq<byte>, entries: seq<nat>)
    requires ItemsOf(from, tree, entries).Some?
    ensures forall item :: item in ItemsOf(from, tree, entries).value ==>
      item.entry in entries && DataOf(from, tree, item.entry) == Some(item.data)
  {
    hide DataOf;
    if entries != [] {
      ItemsAre(from, tree, entries[1..]);
      assert entries == [entries[0]] + entries[1..];
    }
  }

  lemma {:induction false} ReversedHas(items: seq<Item>)
    ensures forall item :: item in Reversed(items) <==> item in items
  {
    if items != [] {
      ReversedHas(items[1..]);
      assert items == [items[0]] + items[1..];
    }
  }

  lemma {:induction false} LastWith(items: seq<Item>, i: nat) returns (last: nat)
    requires i < |items|
    ensures i <= last < |items| && items[last].entry == items[i].entry
    ensures forall j :: last < j < |items| ==> items[j].entry != items[i].entry
    decreases |items| - i
  {
    last := i;
    for k := i + 1 to |items|
      invariant i <= last < k && items[last].entry == items[i].entry
      invariant forall j :: last < j < k ==> items[j].entry != items[i].entry
    {
      if items[k].entry == items[i].entry {
        last := k;
      }
    }
  }

  /** Two records of the layout are the same or do not overlap. */
  lemma RecordsApart(src: Block, a: nat, b: nat)
    requires LinkerLayout(src).Some? && a in LinkerLayout(src).value.leaves && b in LinkerLayout(src).value.leaves
    ensures a == b || a + RECORD_SIZE <= b || b + RECORD_SIZE <= a
  {
    hide PlanOf, Writable, LayoutBytes, TablesSize;
    var plan := PlanOf(src).value;
    var i :| 0 <= i < |plan.leaves| && LeafPlaces(src, plan, plan.leaves)[i] == a;
    var j :| 0 <= j < |plan.leaves| && LeafPlaces(src, plan, plan.leaves)[j] == b;
    assert a == LeafAt(src, plan, plan.leaves[i]) && b == LeafAt(src, plan, plan.leaves[j]);
  }

  lemma LayingItems(src: Block, from: seq<byte>, style: Style, start: nat, item: Item)
    requires LayingOf(src, from, style, start).Some? && item in LayingOf(src, from, style, start).value.items
    ensures LinkerLayout(src).Some? && item.entry in LinkerLayout(src).value.leaves
    ensures DataOf(from, LinkerLayout(src).value.bytes, item.entry) == Some(item.data)
  {
    hide LinkerLayout, ItemsOf, Place, DataOf;
    var layout := LinkerLayout(src).value;
    ItemsAre(from, layout.bytes, layout.leaves);
    ReversedHas(ItemsOf(from, layout.bytes, layout.leaves).value);
  }

  lemma {:induction false} ItemsCover(from: seq<byte>, tree: seq<byte>, entries: seq<nat>)
    requires ItemsOf(from, tree, entries).Some?
    ensures |ItemsOf(from, tree, entries).value| == |entries|
    ensures forall k :: 0 <= k < |entries| ==> ItemsOf(from, tree, entries).value[k].entry == entries[k]
  {
    hide DataOf;
    if entries != [] {
      ItemsCover(from, tree, entries[1..]);
      var items := ItemsOf(from, tree, entries).value;
      forall k | 0 < k < |entries|
        ensures items[k].entry == entries[k]
      {
        assert entries[1..][k - 1] == entries[k];
      }
    }
  }

  lemma EveryRecordIsPlaced(src: Block, from: seq<byte>, style: Style, start: nat, entry: nat) returns (i: nat)
    requires LayingOf(src, from, style, start).Some?
    requires LinkerLayout(src).Some? && entry in LinkerLayout(src).value.leaves
    ensures i < |LayingOf(src, from, style, start).value.items|
    ensures LayingOf(src, from, style, start).value.items[i].entry == entry
  {
    hide LinkerLayout, ItemsOf, Place, DataOf, Reversed;
    var layout := LinkerLayout(src).value;
    var items := ItemsOf(from, layout.bytes, layout.leaves).value;
    ItemsCover(from, layout.bytes, layout.leaves);
    var k :| 0 <= k < |layout.leaves| && layout.leaves[k] == entry;
    ReversedAt(items, k);
    i := if style.VisualBasic? then |items| - 1 - k else k;
  }

  /** Whatever a record of the tree led to before, it leads to the same bytes in the section, with its size as it was. */
  lemma EveryRecordLeads(src: Block, from: seq<byte>, style: Style, start: nat, end: nat, entry: nat)
    requires Relaid(src, from, style, start, end).Some?
    requires LinkerLayout(src).Some? && entry in LinkerLayout(src).value.leaves
    ensures var tree, region := LinkerLayout(src).value.bytes, Relaid(src, from, style, start, end).value;
      var rva, size, place := ReadU32(tree, entry), ReadU32(tree, entry + 4), ReadU32(region, entry);
      && rva.Some? && size.Some? && rva.value + size.value <= |from| && place.Some? && start <= place.value
      && StartsAt(region, place.value - start, from[rva.value..rva.value + size.value])
      && ReadU32(region, entry + 4) == size
  {
    hide LayingOf, LinkerLayout, RegionOf, ReadU32;
    var i := EveryRecordIsPlaced(src, from, style, start, entry);
    PlacedRecordLeads(src, from, style, start, end, i);
    SizesStay(src, from, style, start, end, entry);
  }

  lemma SizesStay(src: Block, from: seq<byte>, style: Style, start: nat, end: nat, entry: nat)
    requires Relaid(src, from, style, start, end).Some?
    requires LinkerLayout(src).Some? && entry in LinkerLayout(src).value.leaves
    requires ReadU32(LinkerLayout(src).value.bytes, entry + 4).Some?
    ensures ReadU32(Relaid(src, from, style, start, end).value, entry + 4) == ReadU32(LinkerLayout(src).value.bytes, entry + 4)
  {
    hide LayingOf, LinkerLayout, RegionOf, DataOf, InEntry, WellLaid, OutOfData, U32At;
    var tree, laying := LinkerLayout(src).value.bytes, LayingOf(src, from, style, start).value;
    TreeOtherwiseStays(src, from, style, start, entry);
    LeavesArePlaced(src, from, style, start, end);
    SameU32(laying.placed.tree, tree, entry + 4);
    FrontReads(Relaid(src, from, style, start, end).value, laying.placed.tree, entry + 4);
  }

  lemma TreeOtherwiseStays(src: Block, from: seq<byte>, style: Style, start: nat, entry: nat)
    requires LayingOf(src, from, style, start).Some?
    requires LinkerLayout(src).Some? && entry in LinkerLayout(src).value.leaves && entry + 8 <= |LinkerLayout(src).value.bytes|
    ensures var tree, after := LinkerLayout(src).value.bytes, LayingOf(src, from, style, start).value.placed.tree;
      |after| == |tree| && forall at :: entry + 4 <= at < entry + 8 ==> after[at] == tree[at]
  {
    hide LinkerLayout, ItemsOf, Place, InOrder;
    var layout := LinkerLayout(src).value;
    var laying := LayingOf(src, from, style, start).value;
    forall at | entry + 4 <= at < entry + 8
      ensures laying.placed.tree[at] == layout.bytes[at]
    {
      forall item | item in laying.items
        ensures !InEntry(item, at)
      {
        LayingItems(src, from, style, start, item);
        RecordsApart(src, item.entry, entry);
      }
      TreeStays(layout.bytes, laying.items, FirstLeaf(style, start, |layout.bytes|), style.Alignment(), at);
    }
  }

  lemma PlacedRecordLeads(src: Block, from: seq<byte>, style: Style, start: nat, end: nat, i: nat)
    requires Relaid(src, from, style, start, end).Some?
    requires LayingOf(src, from, style, start).Some? && i < |LayingOf(src, from, style, start).value.items|
    ensures var item, region := LayingOf(src, from, style, start).value.items[i], Relaid(src, from, style, start, end).value;
      && LinkerLayout(src).Some? && DataOf(from, LinkerLayout(src).value.bytes, item.entry) == Some(item.data)
      && var place := ReadU32(region, item.entry);
      && place.Some? && start <= place.value && StartsAt(region, place.value - start, item.data)
  {
    hide LayingOf, LinkerLayout, Relaid, ReadU32, DataOf, InEntry, WellLaid, OutOfData;
    var laying, region := LayingOf(src, from, style, start).value, Relaid(src, from, style, start, end).value;
    var last := LastWith(laying.items, i);
    LayingItems(src, from, style, start, laying.items[i]);
    LayingItems(src, from, style, start, laying.items[last]);
    forall j | last < j < |laying.items|
      ensures laying.items[j].entry + 4 <= laying.items[last].entry || laying.items[last].entry + 4 <= laying.items[j].entry
    {
      LayingItems(src, from, style, start, laying.items[j]);
      RecordsApart(src, laying.items[j].entry, laying.items[last].entry);
    }
    RecordsAreTold(src, from, style, start, last);
    LeavesArePlaced(src, from, style, start, end);
    FrontReads(region, laying.placed.tree, laying.items[i].entry);
  }

  lemma FrontReads(region: seq<byte>, tree: seq<byte>, at: nat)
    requires StartsAt(region, 0, tree) && ReadU32(tree, at).Some?
    ensures ReadU32(region, at) == ReadU32(tree, at)
  {
    assert forall k :: 0 <= k < |tree| ==> region[k] == tree[k] by {
      assert region[0..|tree|] == tree;
    }
  }

  // ----- the directory

  /** The size the image gives its resources, unless there are none. */
  function KeptSize(bytes: seq<byte>, directory: Option<nat>): Option<nat> {
    if directory.None? then None
    else
      var rva :- ReadU32(bytes, directory.value);
      var size :- ReadU32(bytes, directory.value + 4);
      if rva == 0 || size == 0 then None else Some(size)
  }

  /** A size that still holds everything and stays in the section is kept; else it is what is used, aligned. */
  function DirectorySize(kept: Option<nat>, used: nat, start: nat, end: nat): (r: nat)
    ensures r >= used
    ensures r == used + Gap(used, SIZE_ALIGNMENT) || (kept == Some(r) && start + r <= end)
  {
    if kept.Some? && kept.value >= used && start + kept.value <= end then kept.value else used + Gap(used, SIZE_ALIGNMENT)
  }

  function DirectorySet(bytes: seq<byte>, directory: Option<nat>, start: nat, size: nat): (r: (bool, seq<byte>))
    ensures |r.1| == |bytes|
  {
    if directory.None? || start >= U32 || directory.value + 4 > |bytes| then (false, bytes)
    else
      var one := Put(bytes, directory.value, U32Bytes(start));
      if size >= U32 || directory.value + 8 > |bytes| then (false, one) else (true, Put(one, directory.value + 4, U32Bytes(size)))
  }

  function LaidOut(
      before: seq<byte>, root: nat, start: nat, end: nat, style: Style, pristine: Option<seq<byte>>, directory: Option<nat>)
    : (bool, seq<byte>)
  {
    var from := if pristine.Some? then pristine.value else before;
    var laying := LayingOf(Block(before, root), from, style, start);
    var region := Relaid(Block(before, root), from, style, start, end);
    if laying.None? || region.None? || start + |region.value| > |before| then (false, before)
    else
      var used := laying.value.placed.cursor - start;
      DirectorySet(Put(before, start, region.value), directory, start, DirectorySize(KeptSize(before, directory), used, start, end))
  }

  lemma DirectoryTells(bytes: seq<byte>, directory: Option<nat>, start: nat, size: nat)
    requires DirectorySet(bytes, directory, start, size).0
    ensures directory.Some? && directory.value + 8 <= |bytes|
    ensures var named := DirectorySet(bytes, directory, start, size).1;
      && ReadU32(named, directory.value) == Some(start) && ReadU32(named, directory.value + 4) == Some(size)
      && forall at :: 0 <= at < |bytes| && !(directory.value <= at < directory.value + 8) ==> named[at] == bytes[at]
  {
    hide U32Bytes, U32At;
    var one := Put(bytes, directory.value, U32Bytes(start));
    var named := Put(one, directory.value + 4, U32Bytes(size));
    assert named[directory.value..directory.value + 4] == U32Bytes(start);
    assert named[directory.value + 4..directory.value + 8] == U32Bytes(size);
    U32Reads(named, directory.value, start);
    U32Reads(named, directory.value + 4, size);
  }

  /** The image's size is kept if it still holds everything and stays in the section; else what is used, up to a multiple of 8. */
  predicate IsSize(size: nat, bytes: seq<byte>, at: nat, used: nat, start: nat, end: nat) {
    var rva, kept := ReadU32(bytes, at), ReadU32(bytes, at + 4);
    if rva.Some? && kept.Some? && rva.value != 0 && kept.value != 0 && used <= kept.value && start + kept.value <= end
    then size == kept.value
    else IsNext(size, used, 8)
  }

  lemma SizeIs(bytes: seq<byte>, at: nat, used: nat, start: nat, end: nat)
    ensures IsSize(DirectorySize(KeptSize(bytes, Some(at)), used, start, end), bytes, at, used, start, end)
  {
    hide ReadU32, Gap, IsNext;
    GapLeads(used, 8);
  }

  /**
    * On success the directory leads to the section and its size covers the tree and every leaf. The
    * section holds what was laid out, and nothing else changes.
    */
  lemma LaidOutIsNamed(
      before: seq<byte>, root: nat, start: nat, end: nat, style: Style, pristine: Option<seq<byte>>, directory: Option<nat>)
    requires LaidOut(before, root, start, end, style, pristine, directory).0
    requires directory.Some? ==> directory.value + 8 <= start || end <= directory.value
    ensures var after := LaidOut(before, root, start, end, style, pristine, directory).1;
      var from := if pristine.Some? then pristine.value else before;
      var laying, region := LayingOf(Block(before, root), from, style, start), Relaid(Block(before, root), from, style, start, end);
      && laying.Some? && region.Some? && directory.Some? && |after| == |before| && StartsAt(after, start, region.value)
      && ReadU32(after, directory.value) == Some(start) && ReadU32(after, directory.value + 4).Some?
      && laying.value.placed.cursor <= start + ReadU32(after, directory.value + 4).value
      && IsSize(ReadU32(after, directory.value + 4).value, before, directory.value, laying.value.placed.cursor - start, start, end)
      && forall at :: 0 <= at < |before| && !(start <= at < end) && !(directory.value <= at < directory.value + 8) ==>
           after[at] == before[at]
  {
    hide LayingOf, Relaid, Put, DirectorySet, KeptSize, ReadU32, IsSize;
    var from := if pristine.Some? then pristine.value else before;
    var src := Block(before, root);
    var laying, region := LayingOf(src, from, style, start).value, Relaid(src, from, style, start, end).value;
    RelaidSize(src, from, style, start, end);
    var filled := Put(before, start, region);
    PutTouches(before, start, region);
    var size := DirectorySize(KeptSize(before, directory), laying.placed.cursor - start, start, end);
    DirectoryTells(filled, directory, start, size);
    SizeIs(before, directory.value, laying.placed.cursor - start, start, end);
    var after := LaidOut(before, root, start, end, style, pristine, directory).1;
    assert after[start..start + |region|] == region;
  }

  lemma RelaidSize(src: Block, from: seq<byte>, style: Style, start: nat, end: nat)
    requires Relaid(src, from, style, start, end).Some?
    ensures start <= end && |Relaid(src, from, style, start, end).value| == end - start
  {
    hide LayingOf, Place, LinkerLayout, ItemsOf;
    LayingIsWell(src, from, style, start);
    var laying := LayingOf(src, from, style, start).value;
    RegionHolds(laying, start, end, style.Alignment());
  }

  // ----- step by step

  method CollectItems(from: seq<byte>, tree: seq<byte>, entries: seq<nat>) returns (r: Option<seq<Item>>)
    ensures r == ItemsOf(from, tree, entries)
  {
    hide DataOf;
    var items: seq<Item> := [];
    assert entries[0..] == entries;
    PrependNothing(ItemsOf(from, tree, entries));
    for i := 0 to |entries|
      invariant ItemsOf(from, tree, entries) == Prepend(items, ItemsOf(from, tree, entries[i..]))
    {
      assert entries[i..][0] == entries[i] && entries[i..][1..] == entries[i + 1..];
      var data := DataOf(from, tree, entries[i]);
      if data.None? {
        return None;
      }
      PrependTwice(items, [Item(entries[i], data.value)], ItemsOf(from, tree, entries[i + 1..]));
      items := items + [Item(entries[i], data.value)];
    }
    assert entries[|entries|..] == [] && items + [] == items;
    return Some(items);
  }

  method PlaceItems(start: seq<byte>, items: seq<Item>, first: nat, alignment: nat) returns (r: Option<Placed>)
    requires alignment > 0
    ensures r == Place(start, items, first, alignment)
  {
    hide Put, U32Bytes, Gap;
    var tree := start;
    var cursor: nat := first;
    var places: seq<nat> := [];
    assert items[0..] == items;
    NothingPlaced(Place(start, items, first, alignment));
    for i := 0 to |items|
      invariant Place(start, items, first, alignment) == Behind(places, Place(tree, items[i..], cursor, alignment))
    {
      assert items[i..][0] == items[i] && items[i..][1..] == items[i + 1..];
      var at := cursor + Gap(cursor, alignment);
      if at >= U32 || items[i].entry + 4 > |tree| {
        return None;
      }
      tree := Put(tree, items[i].entry, U32Bytes(at));
      cursor := at + |items[i].data|;
      PlacedTwice(places, at, Place(tree, items[i + 1..], cursor, alignment));
      places := places + [at];
    }
    assert items[|items|..] == [] && places + [] == places;
    return Some(Placed(tree, places, cursor));
  }

  function Behind(places: seq<nat>, rest: Option<Placed>): Option<Placed> {
    if rest.None? then None else Some(rest.value.(places := places + rest.value.places))
  }

  lemma NothingPlaced(rest: Option<Placed>)
    ensures Behind([], rest) == rest
  {
    if rest.Some? {
      assert [] + rest.value.places == rest.value.places;
    }
  }

  lemma PlacedTwice(places: seq<nat>, at: nat, rest: Option<Placed>)
    ensures Behind(places, Behind([at], rest)) == Behind(places + [at], rest)
  {
    if rest.Some? {
      assert places + ([at] + rest.value.places) == places + [at] + rest.value.places;
    }
  }

  lemma PutInPut(buffer: seq<byte>, start: nat, region: seq<byte>, at: nat, data: seq<byte>)
    requires start + |region| <= |buffer| && at + |data| <= |region|
    ensures Put(Put(buffer, start, region), start + at, data) == Put(buffer, start, Put(region, at, data))
  {
    var front, back := buffer[..start], buffer[start + |region|..];
    assert Put(buffer, start, region)[..start + at] == front + region[..at];
    assert Put(buffer, start, region)[start + at + |data|..] == region[at + |data|..] + back;
  }

  /** Writes the directory's address and size; each write can fail, and the first one stays. */
  method WriteDirectory(restored: array<byte>, directory: Option<nat>, start: nat, size: nat) returns (ok: bool)
    modifies restored
    ensures (ok, restored[..]) == DirectorySet(old(restored[..]), directory, start, size)
  {
    hide Put, U32Bytes;
    if directory.None? || start >= U32 || directory.value + 4 > restored.Length {
      return false;
    }
    CopyInto(restored, directory.value, U32Bytes(start));
    if size >= U32 || directory.value + 8 > restored.Length {
      return false;
    }
    CopyInto(restored, directory.value + 4, U32Bytes(size));
    return true;
  }

  /**
    * `restored[start..end]` is the section, and `directory` where the image names its resources, if it
    * does. Without `pristine` data, the leaves are read from `restored` itself.
    */
  method LayOutResources(
      restored: array<byte>, root: nat, start: nat, end: nat, style: Style, pristine: Option<seq<byte>>, directory: Option<nat>)
    returns (ok: bool)
    modifies restored
    ensures (ok, restored[..]) == LaidOut(old(restored[..]), root, start, end, style, pristine, directory)
  {
    hide LinkerLayout, ItemsOf, Place, Put, Fill, InOrder, Zeros, KeptSize, DirectorySet, ReadU32;
    var kept := KeptSize(restored[..], directory);
    var src := Block(restored[..], root);
    var from := if pristine.Some? then pristine.value else restored[..];
    var layout := BuildLayout(src);
    if layout.None? {
      return false;
    }
    var items := CollectItems(from, layout.value.bytes, layout.value.leaves);
    if items.None? {
      return false;
    }
    var ordered := InOrder(style, items.value);
    var placed := PlaceItems(layout.value.bytes, ordered, FirstLeaf(style, start, |layout.value.bytes|), style.Alignment());
    if placed.None? || placed.value.cursor > end {
      return false;
    }
    ghost var laying := Laying(ordered, placed.value);
    assert LayingOf(src, from, style, start) == Some(laying);
    LayingIsWell(src, from, style, start);
    RegionHolds(laying, start, end, style.Alignment());
    if end > restored.Length {
      return false;
    }
    FillSection(restored, laying, ordered, placed.value, start, end, style);
    ok := WriteDirectory(restored, directory, start, DirectorySize(kept, placed.value.cursor - start, start, end));
  }

  method FillSection(restored: array<byte>, ghost laying: Laying, items: seq<Item>, placed: Placed,
                     start: nat, end: nat, style: Style)
    requires laying == Laying(items, placed) && WellLaid(laying, start, style.Alignment()) && placed.cursor <= end <= restored.Length
    modifies restored
    ensures RegionOf(laying, start, end).Some?
    ensures |RegionOf(laying, start, end).value| == end - start
    ensures restored[..] == Put(old(restored[..]), start, RegionOf(laying, start, end).value)
  {
    hide Put, Fill, Zeros, Holds;
    ghost var before := restored[..];
    RegionHolds(laying, start, end, style.Alignment());
    ghost var region := Zeros(end - start);
    BlankSize(end - start);
    CopyInto(restored, start, Zeros(end - start));
    PutInPut(before, start, region, 0, placed.tree);
    CopyInto(restored, start, placed.tree);
    region := Put(region, 0, placed.tree);
    assert items[0..] == items && placed.places[0..] == placed.places;
    for i := 0 to |items|
      invariant |region| == end - start && restored[..] == Put(before, start, region)
      invariant RegionOf(laying, start, end) == Fill(region, items[i..], placed.places[i..], start)
    {
      assert items[i..][0] == items[i] && items[i..][1..] == items[i + 1..];
      assert placed.places[i..][0] == placed.places[i] && placed.places[i..][1..] == placed.places[i + 1..];
      FillStep(region, items[i..], placed.places[i..], start);
      PutInPut(before, start, region, placed.places[i] - start, items[i].data);
      CopyInto(restored, placed.places[i], items[i].data);
      region := Put(region, placed.places[i] - start, items[i].data);
    }
    FillStep(region, items[|items|..], placed.places[|items|..], start);
  }

  lemma BlankSize(count: nat)
    ensures |Zeros(count)| == count
  {
  }

  lemma FillStep(region: seq<byte>, items: seq<Item>, places: seq<nat>, base: nat)
    requires |items| == |places|
    ensures items == [] ==> Fill(region, items, places, base) == Some(region)
    ensures items != [] && base <= places[0] && places[0] - base + |items[0].data| <= |region| ==>
      Fill(region, items, places, base) == Fill(Put(region, places[0] - base, items[0].data), items[1..], places[1..], base)
  {
    hide Put;
  }
}
