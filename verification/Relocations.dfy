/**
  * Base relocation tables: building the page blocks from fixups, and reading them back. The builder
  * sorts and drops duplicates; the reader returns exactly what is left of the pointer fixups.
  */
module Relocations {
  import opened Wrappers
  import opened Bytes

  const PAGE := 0x1000
  const BLOCK_HEADER := 8
  const KIND_LIMIT := 16
  const HIGHLOW := 3
  const DIR64 := 10

  datatype Fixup = Fixup(rva: nat, kind: nat)

  predicate Before(a: Fixup, b: Fixup) {
    a.rva < b.rva || (a.rva == b.rva && a.kind < b.kind)
  }

  predicate Sorted(fixups: seq<Fixup>) {
    forall i, j :: 0 <= i < j < |fixups| ==> Before(fixups[i], fixups[j])
  }

  // ----- sorting and dropping duplicates

  function Insert(fixups: seq<Fixup>, f: Fixup): seq<Fixup> {
    if fixups == [] then [f]
    else if Before(f, fixups[0]) then [f] + fixups
    else if f == fixups[0] then fixups
    else [fixups[0]] + Insert(fixups[1..], f)
  }

  /** The fixups in order, each once. */
  function SortUnique(fixups: seq<Fixup>): seq<Fixup> {
    if fixups == [] then [] else Insert(SortUnique(fixups[..|fixups| - 1]), fixups[|fixups| - 1])
  }

  lemma {:induction false} InsertSorts(fixups: seq<Fixup>, f: Fixup)
    requires Sorted(fixups)
    ensures Sorted(Insert(fixups, f))
    ensures forall g :: g in Insert(fixups, f) <==> g == f || g in fixups
  {
    if fixups != [] && !Before(f, fixups[0]) && f != fixups[0] {
      assert Sorted(fixups[1..]);
      InsertSorts(fixups[1..], f);
      assert fixups == [fixups[0]] + fixups[1..];
      var r := [fixups[0]] + Insert(fixups[1..], f);
      forall i, j | 0 <= i < j < |r|
        ensures Before(r[i], r[j])
      {
        assert r[j] == Insert(fixups[1..], f)[j - 1];
        if i == 0 {
          assert r[j] in Insert(fixups[1..], f);
        } else {
          assert r[i] == Insert(fixups[1..], f)[i - 1];
        }
      }
    }
  }

  lemma {:induction false} SortUniqueSorts(fixups: seq<Fixup>)
    ensures Sorted(SortUnique(fixups))
    ensures forall f :: f in SortUnique(fixups) <==> f in fixups
    decreases |fixups|
  {
    if fixups != [] {
      var init, last := fixups[..|fixups| - 1], fixups[|fixups| - 1];
      SortUniqueSorts(init);
      InsertSorts(SortUnique(init), last);
      assert fixups == init + [last];
    }
  }

  /** A sorted list of distinct fixups is already what sorting makes of it. */
  lemma {:induction false} SortedStays(fixups: seq<Fixup>)
    requires Sorted(fixups)
    ensures SortUnique(fixups) == fixups
    decreases |fixups|
  {
    if fixups != [] {
      var init, last := fixups[..|fixups| - 1], fixups[|fixups| - 1];
      SortedStays(init);
      InsertLast(init, last);
      assert fixups == init + [last];
    }
  }

  lemma {:induction false} InsertLast(fixups: seq<Fixup>, f: Fixup)
    requires forall g :: g in fixups ==> Before(g, f)
    ensures Insert(fixups, f) == fixups + [f]
  {
    if fixups != [] {
      assert fixups[0] in fixups;
      InsertLast(fixups[1..], f);
      assert fixups == [fixups[0]] + fixups[1..];
    }
  }

  // ----- blocks

  function PageOf(rva: nat): nat {
    rva - rva % PAGE
  }

  predicate Encodable(f: Fixup) {
    f.rva < U32 && f.kind < KIND_LIMIT
  }

  /** No fixup lies in the first page, whose number would end the table. */
  predicate AllPlaced(fixups: seq<Fixup>) {
    forall f :: f in fixups ==> Encodable(f) && f.rva >= PAGE
  }

  /** A word holds the kind in its top four bits and the offset in the page below. */
  function WordOf(f: Fixup): nat {
    f.kind % KIND_LIMIT * PAGE + f.rva % PAGE
  }

  function Words(fixups: seq<Fixup>): (r: seq<byte>)
    ensures |r| == 2 * |fixups|
  {
    if fixups == [] then [] else U16Bytes(WordOf(fixups[0])) + Words(fixups[1..])
  }

  /** An odd number of words is filled up with an empty one. */
  function Padding(count: nat): seq<byte> {
    if count % 2 == 0 then [] else [0, 0]
  }

  function BlockSize(count: nat): nat {
    BLOCK_HEADER + 2 * (count + count % 2)
  }

  function Block(fixups: seq<Fixup>): (r: seq<byte>)
    requires fixups != []
    ensures |r| == BlockSize(|fixups|)
  {
    U32Bytes(PageOf(fixups[0].rva)) + U32Bytes(BlockSize(|fixups|)) + (Words(fixups) + Padding(|fixups|))
  }

  /** How many leading fixups share the first one's page. */
  function Run(fixups: seq<Fixup>): (n: nat)
    requires fixups != []
    ensures 1 <= n <= |fixups|
    ensures forall i :: 0 <= i < n ==> PageOf(fixups[i].rva) == PageOf(fixups[0].rva)
    ensures n < |fixups| ==> PageOf(fixups[n].rva) != PageOf(fixups[n - 1].rva)
  {
    if |fixups| == 1 || PageOf(fixups[1].rva) != PageOf(fixups[0].rva) then 1 else 1 + Run(fixups[1..])
  }

  function BlocksOfSorted(fixups: seq<Fixup>): seq<byte>
    decreases |fixups|
  {
    if fixups == [] then []
    else Block(fixups[..Run(fixups)]) + BlocksOfSorted(fixups[Run(fixups)..])
  }

  function Blocks(fixups: seq<Fixup>): seq<byte> {
    BlocksOfSorted(SortUnique(fixups))
  }

  // ----- reading a table

  predicate Pointer(kind: nat) {
    kind == HIGHLOW || kind == DIR64
  }

  /** The pointer fixups among a block's words; a byte left over at the end is ignored. */
  function WordFields(words: seq<byte>, page: nat): seq<Fixup> {
    if |words| < 2 then []
    else
      var word := U16At(words, 0);
      (if Pointer(word / PAGE) then [Fixup(page + word % PAGE, word / PAGE)] else []) + WordFields(words[2..], page)
  }

  /** Reading stops at the first block without a page; one that reaches past the table fails. */
  function Fields(table: seq<byte>): Option<seq<Fixup>> {
    if |table| < BLOCK_HEADER then Some([])
    else
      var page, size := U32At(table, 0), U32At(table, 4);
      if page == 0 || size < BLOCK_HEADER then Some([])
      else if size > |table| then None
      else Prepend(WordFields(table[BLOCK_HEADER..size], page), Fields(table[size..]))
  }

  predicate KnownKind(kind: nat) {
    kind in {0, 1, 2, 3, 10}
  }

  predicate AllKnown(fixups: seq<Fixup>) {
    forall f :: f in fixups ==> KnownKind(f.kind)
  }

  predicate KnownWords(words: seq<byte>) {
    |words| < 2 || (KnownKind(U16At(words, 0) / PAGE) && KnownWords(words[2..]))
  }

  predicate BlocksIntact(table: seq<byte>)
    decreases |table|
  {
    if table == [] then true
    else if |table| < BLOCK_HEADER then false
    else
      var page, size := U32At(table, 0), U32At(table, 4);
      if size == 0 && page == 0 then true
      else if size < BLOCK_HEADER || size % 2 != 0 || size > |table| then false
      else KnownWords(table[BLOCK_HEADER..size]) && BlocksIntact(table[size..])
  }

  predicate AllZero(table: seq<byte>) {
    forall i :: 0 <= i < |table| ==> table[i] == 0
  }

  predicate Intact(table: seq<byte>) {
    !AllZero(table) && BlocksIntact(table)
  }

  // ----- what the blocks look like

  lemma {:induction false} WordIs(fixups: seq<Fixup>, k: nat)
    requires k < |fixups| && fixups[k].kind < 16
    ensures U16At(Words(fixups), 2 * k) == fixups[k].kind * 4096 + fixups[k].rva % 4096
  {
    hide U16Bytes, U16At, WordOf;
    var words := Words(fixups);
    if k == 0 {
      assert words[0..0 + 2] == U16Bytes(WordOf(fixups[0]));
      WordFits(fixups[0]);
      U16RoundTrip(words, 0, WordOf(fixups[0]));
    } else {
      WordIs(fixups[1..], k - 1);
      assert words[2..] == Words(fixups[1..]);
      SameHalf(words, 2 * k, words[2..], 2 * (k - 1));
    }
  }

  lemma WordFits(f: Fixup)
    requires f.kind < 16
    ensures WordOf(f) == f.kind * 4096 + f.rva % 4096 < 0x1_0000
  {
  }

  lemma SameHalf(a: seq<byte>, i: nat, b: seq<byte>, j: nat)
    requires i + 2 <= |a| && j + 2 <= |b| && a[i] == b[j] && a[i + 1] == b[j + 1]
    ensures U16At(a, i) == U16At(b, j)
  {
  }

  /**
    * A block says its page, the first multiple of 4096 at or below its fixups, and its own size, a multiple
    * of four; then come its words, the kind over the offset in the page, and at most one empty word.
    */
  lemma BlockIs(fixups: seq<Fixup>)
    requires fixups != [] && 8 + 2 * (|fixups| + 1) < U32
    requires forall f :: f in fixups ==> f.rva < U32 && f.kind < 16
    ensures var block := Block(fixups);
      && U32At(block, 0) == fixups[0].rva / 4096 * 4096 && U32At(block, 4) == |block| && |block| % 4 == 0
      && 8 + 2 * |fixups| <= |block| <= 10 + 2 * |fixups|
      && (forall k :: 0 <= k < |fixups| ==> U16At(block, 8 + 2 * k) == fixups[k].kind * 4096 + fixups[k].rva % 4096)
      && (8 + 2 * |fixups| < |block| ==> U16At(block, 8 + 2 * |fixups|) == 0)
  {
    hide U32Bytes, U32At, U16At, Words;
    var block, n := Block(fixups), |fixups|;
    assert fixups[0] in fixups;
    PageIs(fixups[0].rva);
    assert block[0..4] == U32Bytes(PageOf(fixups[0].rva)) && block[4..8] == U32Bytes(BlockSize(n));
    U32RoundTrip(block, 0, PageOf(fixups[0].rva));
    U32RoundTrip(block, 4, BlockSize(n));
    SizeIs(n);
    forall k | 0 <= k < n
      ensures U16At(block, 8 + 2 * k) == fixups[k].kind * 4096 + fixups[k].rva % 4096
    {
      assert fixups[k] in fixups;
      WordIs(fixups, k);
      SameHalf(block, 8 + 2 * k, Words(fixups), 2 * k);
    }
    if 8 + 2 * n < |block| {
      EmptyWord(block, 8 + 2 * n);
    }
  }

  lemma PageIs(rva: nat)
    ensures PageOf(rva) == rva / 4096 * 4096
  {
  }

  lemma SizeIs(count: nat)
    ensures BlockSize(count) % 4 == 0 && 8 + 2 * count <= BlockSize(count) <= 10 + 2 * count
  {
  }

  lemma EmptyWord(bytes: seq<byte>, at: nat)
    requires at + 2 <= |bytes| && bytes[at] == 0 && bytes[at + 1] == 0
    ensures U16At(bytes, at) == 0
  {
  }

  // ----- what is read back

  function PointersOf(fixups: seq<Fixup>): seq<Fixup> {
    if fixups == [] then []
    else (if Pointer(fixups[0].kind) then [fixups[0]] else []) + PointersOf(fixups[1..])
  }

  lemma {:induction false} PointersAppend(a: seq<Fixup>, b: seq<Fixup>)
    ensures PointersOf(a + b) == PointersOf(a) + PointersOf(b)
  {
    hide Pointer;
    if a == [] {
      assert a + b == b;
    } else {
      assert (a + b)[1..] == a[1..] + b && (a + b)[0] == a[0];
      PointersAppend(a[1..], b);
      var first := if Pointer(a[0].kind) then [a[0]] else [];
      assert PointersOf(a) == first + PointersOf(a[1..]);
      assert PointersOf(a + b) == first + PointersOf(a[1..] + b);
    }
  }

  predicate OnPage(fixups: seq<Fixup>, page: nat) {
    forall f :: f in fixups ==> Encodable(f) && PageOf(f.rva) == page
  }

  lemma WordParts(f: Fixup)
    requires Encodable(f)
    ensures WordOf(f) < 0x1_0000 && WordOf(f) / PAGE == f.kind && WordOf(f) % PAGE == f.rva % PAGE
  {
  }

  /** Behind the words there is at most one empty one. */
  predicate Filler(bytes: seq<byte>) {
    bytes == [] || bytes == [0, 0]
  }

  lemma FillerIsEmpty(filler: seq<byte>, page: nat)
    requires Filler(filler)
    ensures WordFields(filler, page) == [] && KnownWords(filler)
  {
    if filler == [0, 0] {
      assert U16At(filler, 0) == 0 && filler[2..] == [];
    }
  }

  lemma {:induction false} WordsRoundTrip(fixups: seq<Fixup>, filler: seq<byte>, page: nat)
    requires OnPage(fixups, page) && Filler(filler)
    ensures WordFields(Words(fixups) + filler, page) == PointersOf(fixups)
    ensures KnownWords(Words(fixups) + filler) <==> AllKnown(fixups)
    decreases |fixups|
  {
    hide Filler;
    var words := Words(fixups) + filler;
    if fixups == [] {
      assert words == filler;
      FillerIsEmpty(filler, page);
    } else {
      var f := fixups[0];
      assert f in fixups;
      WordParts(f);
      assert words[..2] == U16Bytes(WordOf(f)) && words[0..0 + 2] == words[..2];
      assert words[2..] == Words(fixups[1..]) + filler;
      U16RoundTrip(words, 0, WordOf(f));
      assert fixups == [f] + fixups[1..];
      WordsRoundTrip(fixups[1..], filler, page);
      assert Fixup(page + f.rva % PAGE, f.kind) == f;
    }
  }

  lemma PaddedLength(fixups: seq<Fixup>)
    ensures BLOCK_HEADER + |Words(fixups) + Padding(|fixups|)| == BlockSize(|fixups|)
  {
  }

  lemma BlockHeaderReads(fixups: seq<Fixup>, rest: seq<byte>, page: nat)
    requires fixups != [] && OnPage(fixups, page) && BlockSize(|fixups|) < U32
    ensures var table := Block(fixups) + rest;
            && U32At(table, 0) == page && U32At(table, 4) == BlockSize(|fixups|)
            && table[BLOCK_HEADER..BlockSize(|fixups|)] == Words(fixups) + Padding(|fixups|)
            && table[BlockSize(|fixups|)..] == rest
  {
    hide U32Bytes, U32At, Words, Padding;
    var table := Block(fixups) + rest;
    assert fixups[0] in fixups;
    assert table[0..4] == U32Bytes(page);
    assert table[4..8] == U32Bytes(BlockSize(|fixups|));
    U32RoundTrip(table, 0, page);
    U32RoundTrip(table, 4, BlockSize(|fixups|));
    PaddedLength(fixups);
  }

  /** The first run shares a page, and nothing is lost where it ends. */
  lemma SplitAtRun(fixups: seq<Fixup>)
    requires fixups != [] && AllPlaced(fixups) && Sorted(fixups)
    ensures 1 <= Run(fixups) <= |fixups|
    ensures var page, run, rest := PageOf(fixups[0].rva), fixups[..Run(fixups)], fixups[Run(fixups)..];
            && page != 0 && fixups == run + rest
            && OnPage(run, page) && Sorted(run)
            && AllPlaced(rest) && Sorted(rest)
            && (AllKnown(fixups) <==> AllKnown(run) && AllKnown(rest))
  {
    hide AllKnown, AllPlaced, OnPage, Sorted, Encodable;
    RunOnPage(fixups);
    var run, rest := fixups[..Run(fixups)], fixups[Run(fixups)..];
    assert fixups == run + rest;
    MembersOfBoth(run, rest);
    OrderOfBoth(run, rest);
  }

  lemma RunOnPage(fixups: seq<Fixup>)
    requires fixups != [] && AllPlaced(fixups)
    ensures OnPage(fixups[..Run(fixups)], PageOf(fixups[0].rva)) && PageOf(fixups[0].rva) != 0
  {
    hide Encodable;
    var run := fixups[..Run(fixups)];
    assert fixups[0] in fixups;
    forall f | f in run
      ensures Encodable(f) && PageOf(f.rva) == PageOf(fixups[0].rva)
    {
      var i :| 0 <= i < |run| && run[i] == f;
      assert f == fixups[i] && f in fixups;
    }
  }

  lemma MembersOfBoth(a: seq<Fixup>, b: seq<Fixup>)
    ensures AllPlaced(a + b) <==> AllPlaced(a) && AllPlaced(b)
    ensures AllKnown(a + b) <==> AllKnown(a) && AllKnown(b)
  {
    hide Encodable, KnownKind;
    assert forall f :: f in a + b <==> f in a || f in b;
  }

  lemma OrderOfBoth(a: seq<Fixup>, b: seq<Fixup>)
    requires Sorted(a + b)
    ensures Sorted(a) && Sorted(b)
  {
    hide Before;
    var both := a + b;
    forall i, j | 0 <= i < j < |a|
      ensures Before(a[i], a[j])
    {
      assert Before(both[i], both[j]);
    }
    forall i, j | 0 <= i < j < |b|
      ensures Before(b[i], b[j])
    {
      assert Before(both[|a| + i], both[|a| + j]);
    }
  }

  /** No page has room for more than 65536 different words. */
  lemma RunIsShort(fixups: seq<Fixup>, page: nat)
    requires Sorted(fixups) && OnPage(fixups, page)
    ensures |fixups| <= 0x1_0000
  {
    if fixups != [] {
      WordsClimb(fixups, page, |fixups| - 1);
      assert fixups[|fixups| - 1] in fixups;
    }
  }

  lemma {:induction false} WordsClimb(fixups: seq<Fixup>, page: nat, i: nat)
    requires Sorted(fixups) && OnPage(fixups, page) && i < |fixups|
    ensures i <= (fixups[i].rva - page) * KIND_LIMIT + fixups[i].kind
  {
    assert fixups[i] in fixups;
    if i > 0 {
      WordsClimb(fixups, page, i - 1);
      assert Before(fixups[i - 1], fixups[i]);
      assert fixups[i - 1] in fixups;
    }
  }

  lemma FirstBlock(table: seq<byte>)
    requires |table| >= BLOCK_HEADER && U32At(table, 0) != 0 && BLOCK_HEADER <= U32At(table, 4) <= |table|
    requires U32At(table, 4) % 2 == 0
    ensures var page, size := U32At(table, 0), U32At(table, 4);
            && Fields(table) == Prepend(WordFields(table[BLOCK_HEADER..size], page), Fields(table[size..]))
            && (BlocksIntact(table) <==> KnownWords(table[BLOCK_HEADER..size]) && BlocksIntact(table[size..]))
  {
    hide U32At, WordFields, KnownWords;
  }

  lemma {:induction false} SortedRoundTrip(fixups: seq<Fixup>)
    requires Sorted(fixups) && AllPlaced(fixups)
    ensures Fields(BlocksOfSorted(fixups)) == Some(PointersOf(fixups))
    ensures BlocksIntact(BlocksOfSorted(fixups)) <==> AllKnown(fixups)
    decreases |fixups|
  {
    if fixups == [] {
      assert BlocksOfSorted(fixups) == [];
    } else {
      hide Block, WordFields, KnownWords, Words, Padding, Run, U32At, Fields, BlocksIntact, BlocksOfSorted;
      hide AllKnown, AllPlaced, OnPage, Sorted, PageOf, BlockSize, PointersOf;
      BlocksStep(fixups);
      SplitAtRun(fixups);
      var n, page := Run(fixups), PageOf(fixups[0].rva);
      var run, rest := fixups[..n], fixups[n..];
      RunIsShort(run, page);
      BlockSizeBounds(n);
      BlockHeaderReads(run, BlocksOfSorted(rest), page);
      FirstBlock(BlocksOfSorted(fixups));
      WordsRoundTrip(run, Padding(n), page);
      SortedRoundTrip(rest);
      PointersAppend(run, rest);
    }
  }

  lemma BlockSizeBounds(count: nat)
    requires count <= 0x1_0000
    ensures BLOCK_HEADER <= BlockSize(count) < U32 && BlockSize(count) % 2 == 0
    ensures Filler(Padding(count))
  {
  }

  /** The table built from any fixups reads back as the sorted, distinct pointer fixups among them. */
  lemma RelocationsRoundTrip(fixups: seq<Fixup>)
    requires AllPlaced(fixups)
    ensures Fields(Blocks(fixups)) == Some(PointersOf(SortUnique(fixups)))
    ensures Intact(Blocks(fixups)) <==> fixups != [] && AllKnown(fixups)
  {
    hide Fields, BlocksIntact, BlocksOfSorted, SortUnique;
    var sorted := SortUnique(fixups);
    SortUniqueSorts(fixups);
    SortedRoundTrip(sorted);
    if fixups == [] {
      NoBlocks();
    } else {
      assert fixups[0] in fixups;
      BlocksNotZero(sorted);
    }
  }

  lemma NoBlocks()
    ensures SortUnique([]) == [] && BlocksOfSorted([]) == []
  {
  }

  lemma BlocksNotZero(fixups: seq<Fixup>)
    requires fixups != [] && AllPlaced(fixups) && Sorted(fixups)
    ensures !AllZero(BlocksOfSorted(fixups))
  {
    var run := fixups[..Run(fixups)];
    SplitAtRun(fixups);
    var page := PageOf(fixups[0].rva);
    RunIsShort(run, page);
    BlockHeaderReads(run, BlocksOfSorted(fixups[Run(fixups)..]), page);
    var table := BlocksOfSorted(fixups);
    assert table[0] != 0 || table[1] != 0 || table[2] != 0 || table[3] != 0;
  }

  /** Of all fixups, exactly those of kinds 3 and 10 are read back. */
  lemma ReadBackIff(fixups: seq<Fixup>)
    requires AllPlaced(fixups)
    ensures Fields(Blocks(fixups)).Some? && Sorted(Fields(Blocks(fixups)).value)
    ensures forall f :: f in Fields(Blocks(fixups)).value <==> f in fixups && (f.kind == 3 || f.kind == 10)
  {
    hide Fields, Blocks, SortUnique, Intact;
    RelocationsRoundTrip(fixups);
    SortUniqueSorts(fixups);
    PointersAre(SortUnique(fixups));
  }

  lemma {:induction false} PointersAre(fixups: seq<Fixup>)
    requires Sorted(fixups)
    ensures Sorted(PointersOf(fixups))
    ensures forall f :: f in PointersOf(fixups) <==> f in fixups && (f.kind == 3 || f.kind == 10)
  {
    if fixups != [] {
      var first, rest := fixups[0], PointersOf(fixups[1..]);
      assert fixups == [first] + fixups[1..];
      assert forall i :: 0 < i < |fixups| ==> Before(first, fixups[i]);
      PointersAre(fixups[1..]);
      forall f | f in rest
        ensures Before(first, f)
      {
        var i :| 0 <= i < |fixups[1..]| && fixups[1..][i] == f;
        assert fixups[i + 1] == f;
      }
    }
  }

  /** A table is intact if and only if it holds something and every kind is 0 to 3, or 10. */
  lemma IntactIff(fixups: seq<Fixup>)
    requires AllPlaced(fixups)
    ensures Intact(Blocks(fixups)) <==> fixups != [] && forall f :: f in fixups ==> f.kind <= 3 || f.kind == 10
  {
    hide Fields, Blocks, SortUnique, Intact;
    RelocationsRoundTrip(fixups);
    assert AllKnown(fixups) <==> forall f :: f in fixups ==> f.kind <= 3 || f.kind == 10;
  }

  /** Every intact table can be read. */
  lemma {:induction false} IntactTablesRead(table: seq<byte>)
    requires BlocksIntact(table)
    ensures Fields(table).Some?
    decreases |table|
  {
    hide U32At, WordFields, KnownWords;
    if |table| >= BLOCK_HEADER {
      var page, size := U32At(table, 0), U32At(table, 4);
      if page != 0 && BLOCK_HEADER <= size <= |table| {
        IntactTablesRead(table[size..]);
      }
    }
  }

  /** Fixups of the two pointer kinds are neither gained nor lost. */
  lemma PointersSurvive(fixups: seq<Fixup>)
    requires AllPlaced(fixups) && forall f :: f in fixups ==> f.kind == 3 || f.kind == 10
    ensures Fields(Blocks(fixups)) == Some(SortUnique(fixups))
    ensures Intact(Blocks(fixups)) <==> fixups != []
  {
    hide Fields, Intact, Blocks, SortUnique, PointersOf;
    RelocationsRoundTrip(fixups);
    SortUniqueSorts(fixups);
    AllPointers(SortUnique(fixups));
  }

  lemma {:induction false} AllPointers(fixups: seq<Fixup>)
    requires forall f :: f in fixups ==> Pointer(f.kind)
    ensures PointersOf(fixups) == fixups
  {
    if fixups != [] {
      assert fixups[0] in fixups;
      AllPointers(fixups[1..]);
      assert fixups == [fixups[0]] + fixups[1..];
    }
  }

  // ----- the builder and the readers as loops

  method BuildWords(page: seq<Fixup>) returns (words: seq<byte>)
    requires page != []
    ensures words == Words(page) + Padding(|page|)
  {
    words := [];
    for i := 0 to |page|
      invariant words + Words(page[i..]) == Words(page)
    {
      assert page[i..][1..] == page[i + 1..];
      ghost var before := words;
      words := words + U16Bytes(WordOf(page[i]));
      assert words + Words(page[i + 1..]) == before + Words(page[i..]);
    }
    assert page[|page|..] == [];
    if |page| % 2 != 0 {
      words := words + [0, 0];
    }
  }

  method CountRun(fixups: seq<Fixup>) returns (count: nat)
    requires fixups != []
    ensures count == Run(fixups)
  {
    count := 1;
    while count < |fixups| && PageOf(fixups[count].rva) == PageOf(fixups[count - 1].rva)
      invariant 1 <= count <= |fixups|
      invariant Run(fixups) == count - 1 + Run(fixups[count - 1..])
    {
      assert fixups[count - 1..][1..] == fixups[count..];
      count := count + 1;
    }
    assert fixups[count - 1..][0] == fixups[count - 1];
    assert count < |fixups| ==> fixups[count - 1..][1] == fixups[count];
  }

  method BuildBlock(page: seq<Fixup>) returns (block: seq<byte>)
    requires page != []
    ensures block == Block(page)
  {
    var words := BuildWords(page);
    block := U32Bytes(PageOf(page[0].rva)) + U32Bytes(BLOCK_HEADER + |words|) + words;
  }

  method RelocationBlocks(fixups: seq<Fixup>) returns (blocks: seq<byte>)
    ensures blocks == Blocks(fixups)
  {
    hide Block, SortUnique, BlocksOfSorted, Run;
    var sorted := SortUnique(fixups);
    blocks := [];
    var start := 0;
    while start < |sorted|
      invariant start <= |sorted|
      invariant blocks + BlocksOfSorted(sorted[start..]) == BlocksOfSorted(sorted)
    {
      var rest := sorted[start..];
      var count := CountRun(rest);
      BlocksStep(rest);
      var block := BuildBlock(rest[..count]);
      assert rest[count..] == sorted[start + count..];
      assert blocks + BlocksOfSorted(rest) == (blocks + block) + BlocksOfSorted(rest[count..]);
      blocks := blocks + block;
      start := start + count;
    }
    assert sorted[start..] == [];
    NoBlocks();
  }

  lemma BlocksStep(fixups: seq<Fixup>)
    requires fixups != []
    ensures 1 <= Run(fixups) <= |fixups|
    ensures BlocksOfSorted(fixups) == Block(fixups[..Run(fixups)]) + BlocksOfSorted(fixups[Run(fixups)..])
  {
    hide Block;
  }

  method RelocatedFields(table: seq<byte>) returns (fields: Option<seq<Fixup>>)
    ensures fields == Fields(table)
  {
    hide U32At, WordFields;
    var found: seq<Fixup> := [];
    var cursor := 0;
    assert table[0..] == table;
    PrependNothing(Fields(table));
    while cursor + BLOCK_HEADER <= |table|
      invariant cursor <= |table|
      invariant Fields(table) == Prepend(found, Fields(table[cursor..]))
      decreases |table| - cursor
    {
      var rest := table[cursor..];
      var page, size := U32At(rest, 0), U32At(rest, 4);
      if page == 0 || size < BLOCK_HEADER {
        assert found + [] == found;
        return Some(found);
      }
      if cursor + size > |table| {
        return None;
      }
      var words := BlockFields(rest[BLOCK_HEADER..size], page);
      assert rest[size..] == table[cursor + size..];
      PrependTwice(found, words, Fields(rest[size..]));
      found := found + words;
      cursor := cursor + size;
    }
    assert found + [] == found;
    return Some(found);
  }

  method BlockFields(words: seq<byte>, page: nat) returns (fields: seq<Fixup>)
    ensures fields == WordFields(words, page)
  {
    hide U16At;
    fields := [];
    var at := 0;
    assert words[0..] == words;
    while at + 2 <= |words|
      invariant at <= |words|
      invariant fields + WordFields(words[at..], page) == WordFields(words, page)
    {
      var word := U16At(words[at..], 0);
      assert words[at..][2..] == words[at + 2..];
      var found := if Pointer(word / PAGE) then [Fixup(page + word % PAGE, word / PAGE)] else [];
      assert fields + WordFields(words[at..], page) == (fields + found) + WordFields(words[at + 2..], page);
      fields := fields + found;
      at := at + 2;
    }
  }

  method RelocationsIntact(table: seq<byte>) returns (intact: bool)
    ensures intact == Intact(table)
  {
    hide U32At, KnownWords;
    if forall i :: 0 <= i < |table| ==> table[i] == 0 {
      return false;
    }
    var cursor := 0;
    assert table[0..] == table;
    while cursor < |table|
      invariant cursor <= |table|
      invariant BlocksIntact(table) == BlocksIntact(table[cursor..])
      decreases |table| - cursor
    {
      var rest := table[cursor..];
      if |rest| < BLOCK_HEADER {
        return false;
      }
      var page, size := U32At(rest, 0), U32At(rest, 4);
      if size == 0 && page == 0 {
        return true;
      }
      if size < BLOCK_HEADER || size % 2 != 0 || size > |rest| {
        return false;
      }
      if !KnownWords(rest[BLOCK_HEADER..size]) {
        return false;
      }
      assert rest[size..] == table[cursor + size..];
      cursor := cursor + size;
    }
    return true;
  }
}
