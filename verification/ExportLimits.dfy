/**
  * Export tables that are laid out although something about them is lost: a forwarder that no name
  * leads to, and functions beyond the most that are read.
  */
module ExportLimits {
  import opened Wrappers
  import opened Buffers
  import opened Bytes
  import opened Texts
  import opened Exports

  // ----- counting is not enough

  /** A directory, two functions, two names for the first of them, and the texts of two forwarders. */
  function TwiceNamed(): (r: seq<byte>)
    ensures |r| == 70
  {
    seq(70, at => TwiceNamedByte(at))
  }

  function TwiceNamedByte(at: int): byte {
    match at
    case 12 => 60
    case 20 => 2
    case 24 => 2
    case 28 => 40
    case 32 => 48
    case 36 => 56
    case 40 => 66
    case 44 => 68
    case 48 => 62
    case 52 => 64
    case 60 => 77
    case 62 => 65
    case 64 => 66
    case 66 => 67
    case 68 => 68
    case _ => 0
  }

  function TwoForwarders(): seq<Forwarder> {
    [Forwarder(66, [67]), Forwarder(68, [68])]
  }

  function TwiceNamedTable(): Table {
    Table([77], [66, 68], [Named([65], 0), Named([66], 0)])
  }

  lemma TwiceNamedFields()
    ensures var bytes := TwiceNamed();
      && ReadU32(bytes, 12) == Some(60) && ReadU32(bytes, 20) == Some(2) && ReadU32(bytes, 24) == Some(2)
      && ReadU32(bytes, 28) == Some(40) && ReadU32(bytes, 32) == Some(48) && ReadU32(bytes, 36) == Some(56)
  {
  }

  lemma TwiceNamedLists()
    ensures var bytes := TwiceNamed();
      && ReadU32(bytes, 40) == Some(66) && ReadU32(bytes, 44) == Some(68)
      && ReadU32(bytes, 48) == Some(62) && ReadU32(bytes, 52) == Some(64)
      && ReadU16(bytes, 56) == Some(0) && ReadU16(bytes, 58) == Some(0)
  {
  }

  /** One letter and its end read as a text. */
  lemma LetterReads(bytes: seq<byte>, at: nat, letter: byte)
    requires at + 2 <= |bytes| && bytes[at] == letter && bytes[at + 1] == 0 && 0 < letter < 128
    ensures ReadText(bytes, at) == Some([letter])
  {
    hide ReadText;
    assert bytes[at..at + 2] == [letter] + [0];
    AsciiIsProper([letter]);
    TextRoundTrip(bytes, at, [letter]);
  }

  lemma TwiceNamedTexts()
    ensures var bytes := TwiceNamed();
      ReadText(bytes, 60) == Some([77]) && ReadText(bytes, 62) == Some([65]) && ReadText(bytes, 64) == Some([66])
  {
    hide ReadText;
    LetterReads(TwiceNamed(), 60, 77);
    LetterReads(TwiceNamed(), 62, 65);
    LetterReads(TwiceNamed(), 64, 66);
  }

  lemma TwoWords(bytes: seq<byte>, at: nat, first: nat, second: nat)
    requires ReadU32(bytes, at) == Some(first) && ReadU32(bytes, at + 4) == Some(second)
    ensures ReadWords(bytes, at, 2) == Some([first, second])
  {
    hide ReadU32;
    assert ReadWords(bytes, at + 8, 0) == Some([]) && [second] + [] == [second];
    assert ReadWords(bytes, at + 4, 1) == Some([second]) && [first] + [second] == [first, second];
  }

  lemma TwoNames(bytes: seq<byte>, names: nat, ordinals: nat, first: nat, second: nat, a: Text, b: Text)
    requires ReadU32(bytes, names) == Some(first) && ReadU32(bytes, names + 4) == Some(second)
    requires ReadU16(bytes, ordinals) == ReadU16(bytes, ordinals + 2) == Some(0)
    requires ReadText(bytes, first) == Some(a) && ReadText(bytes, second) == Some(b)
    ensures ReadNames(bytes, names, ordinals, 2) == Some([Named(a, 0), Named(b, 0)])
  {
    hide ReadU32, ReadU16, ReadText;
    var none: seq<Named> := [];
    assert ReadNames(bytes, names + 8, ordinals + 4, 0) == Some(none) && [Named(b, 0)] + none == [Named(b, 0)];
    assert ReadNames(bytes, names + 4, ordinals + 2, 1) == Some([Named(b, 0)]);
    assert [Named(a, 0)] + [Named(b, 0)] == [Named(a, 0), Named(b, 0)];
  }

  lemma TwiceNamedReads()
    ensures ReadExports(TwiceNamed(), 0) == Some(TwiceNamedTable())
  {
    hide TwiceNamed, ReadText, ReadU32, ReadU16, ReadWords, ReadNames;
    TwiceNamedFields();
    TwiceNamedLists();
    TwiceNamedTexts();
    TwoWords(TwiceNamed(), 40, 66, 68);
    TwoNames(TwiceNamed(), 48, 56, 62, 64, [65], [66]);
  }

  /** Both names lead to the first function, whose forwarder is therefore placed twice. */
  lemma TwicePlaced()
    ensures PlacedOf(TwiceNamedTable(), TwoForwarders()) == [Placed(0, 66, 64), Placed(0, 66, 68)]
    ensures NameOffsets([66, 68], TwoForwarders(), TwiceNamedTable().names, 62) == [62, 66]
  {
    var table, forwarders := TwiceNamedTable(), TwoForwarders();
    var first, second := table.names[0], table.names[1];
    var none: seq<Named> := [];
    assert table.names[1..] == [second] && [second][1..] == none;
    assert FirstName(table) == 62;
    assert ForwarderOf(table.functions, forwarders, first) == Some(forwarders[0]) == ForwarderOf(table.functions, forwarders, second);
    assert |EntryBytes(table.functions, forwarders, first)| == 4 && |EntryBytes(table.functions, forwarders, second)| == 4;
    assert ForwarderOffsets(table.functions, forwarders, none, 70) == [] && NameOffsets(table.functions, forwarders, none, 70) == [];
    assert ForwarderOffsets(table.functions, forwarders, [second], 66) == [Placed(0, 66, 68)];
    assert NameOffsets(table.functions, forwarders, [second], 66) == [66];
  }

  /**
    * The layout only counts: one forwarder has two names and the other none, so the count is right and
    * the table is laid out, at any start. The second function still has its old address.
    */
  lemma CountingIsNotEnough(start: nat, image: seq<byte>)
    requires start + 70 < U32
    ensures ReadExports(TwiceNamed(), 0) == Some(TwiceNamedTable()) && Find(TwoForwarders(), 68) == Some(Forwarder(68, [68]))
    ensures LinkerLayout(TwiceNamed(), 0, TwoForwarders(), Some(start)).Some?
    ensures var (placedAt, block) := LinkerLayout(TwiceNamed(), 0, TwoForwarders(), Some(start)).value;
      StartsAt(image, placedAt, block) ==>
        ReadExports(image, start) == Some(TwiceNamedTable().(functions := [start + 64, 68]))
  {
    TwiceNamedReads();
    TwicePlaced();
    SecondIsFound();
    hide Block, ReadExports, TwiceNamed, ForwarderOffsets, NameOffsets, TwoForwarders;
    var table, forwarders := TwiceNamedTable(), TwoForwarders();
    TablesReadAreSound(TwiceNamed(), 0);
    FunctionsThen(start);
    assert Shifted([62, 66], start) == [start + 62, start + 66];
    assert |forwarders| == 2;
    assert Fits(table, forwarders, start);
    var (placedAt, block) := LinkerLayout(TwiceNamed(), 0, forwarders, Some(start)).value;
    if StartsAt(image, placedAt, block) {
      ExportsRoundTrip(TwiceNamed(), 0, forwarders, Some(start), image);
    }
  }

  lemma SecondIsFound()
    ensures Find(TwoForwarders(), 68) == Some(Forwarder(68, [68])) && |TwoForwarders()| == 2
  {
    assert TwoForwarders()[1..] == [Forwarder(68, [68])];
  }

  lemma FunctionsThen(start: nat)
    ensures NewFunctions(TwiceNamedTable(), [Placed(0, 66, 64), Placed(0, 66, 68)], start) == [start + 64, 68]
  {
    var placed := [Placed(0, 66, 64), Placed(0, 66, 68)];
    assert placed[1..] == [Placed(0, 66, 68)] && placed[1..][1..] == [];
    assert FindPlaced(placed[1..], 1) == None;
    assert FindPlaced(placed, 1) == None && FindPlaced(placed, 0) == Some(placed[0]);
  }

  // ----- a count that is cut

  /** A directory that claims one function more than are read, all at address zero, and a module's name. */
  function LongExports(): (r: seq<byte>)
    ensures |r| == 262186
  {
    seq(262186, at => LongExportsByte(at))
  }

  function LongExportsByte(at: int): byte {
    match at
    case 12 => 40
    case 14 => 4
    case 20 => 1
    case 22 => 1
    case 28 => 40
    case 262184 => 77
    case _ => 0
  }

  lemma LongExportsFields()
    ensures var bytes := LongExports();
      && ReadU32(bytes, 12) == Some(262184) && ReadU32(bytes, 20) == Some(MAX_ENTRIES + 1) && ReadU32(bytes, 24) == Some(0)
      && ReadU32(bytes, 28) == Some(40) && ReadU32(bytes, 32) == Some(0) && ReadU32(bytes, 36) == Some(0)
    ensures forall at :: 40 <= at < 262184 ==> LongExports()[at] == 0
    ensures LongExports()[262184] == 77 && LongExports()[262185] == 0
  {
  }

  function Same(word: nat, count: nat): (r: seq<nat>)
    ensures |r| == count && forall w :: w in r ==> w == word
  {
    seq(count, _ => word)
  }

  lemma {:induction false} ZerosRead(bytes: seq<byte>, at: nat, count: nat)
    requires at + 4 * count <= |bytes| && forall i :: at <= i < at + 4 * count ==> bytes[i] == 0
    ensures ReadWords(bytes, at, count) == Some(Same(0, count))
    decreases count
  {
    if count > 0 {
      ZerosRead(bytes, at + 4, count - 1);
      assert [0] + Same(0, count - 1) == Same(0, count);
    }
  }

  lemma LongExportsRead()
    ensures ReadExports(LongExports(), 0) == Some(Table([77], Same(0, MAX_ENTRIES), []))
  {
    LongExportsFields();
    hide LongExports, ReadWords, ReadText, ReadU32;
    ZerosRead(LongExports(), 40, MAX_ENTRIES);
    LetterReads(LongExports(), 262184, 77);
  }

  /** The table is laid out, at any start, and the start is then not found in the block. */
  lemma LongCountIsLaidOut(start: nat, image: seq<byte>)
    requires start + 262186 < U32
    ensures LinkerLayout(LongExports(), 0, [], Some(start)).Some?
    ensures var (placedAt, block) := LinkerLayout(LongExports(), 0, [], Some(start)).value;
      StartsAt(image, placedAt, block) ==> LinkerStart(image, placedAt) != Some(placedAt)
  {
    LongExportsRead();
    LongExportsFields();
    hide Block, ReadExports, LongExports, LinkerStart, StartsAt, ReadU32;
    TablesReadAreSound(LongExports(), 0);
    NothingPlaced(start);
    assert LinkerLayout(LongExports(), 0, [], Some(start)).Some?;
    var (placedAt, block) := LinkerLayout(LongExports(), 0, [], Some(start)).value;
    if StartsAt(image, placedAt, block) {
      StartIsFoundIff(LongExports(), 0, [], Some(start), image);
    }
  }

  lemma NothingPlaced(start: nat)
    requires start + 262186 < U32
    ensures PlacedOf(Table([77], Same(0, MAX_ENTRIES), []), []) == [] && Fits(Table([77], Same(0, MAX_ENTRIES), []), [], start)
  {
    var table := Table([77], Same(0, MAX_ENTRIES), []);
    assert AllWords(NewFunctions(table, [], start));
    assert Shifted([], start) == [];
  }
}
