/**
  * Building the import section's payload: a vector that grows group by group while its earlier
  * thunks and descriptors are filled in.
  */
module ImportSection {
  import opened Wrappers
  import opened Buffers
  import opened Bytes
  import opened Imports
  import opened Texts

  // ----- what can be built

  /** Every name is ASCII and every address fits the descriptors. */
  predicate Buildable(rva: nat, at: nat, groups: seq<Group>, wide: bool)
    decreases |groups|
  {
    groups == []
    || (&& Writable(groups[0]) && rva + ModuleAt(at, groups[0], wide) < U32
        && Buildable(rva, at + |Blob(rva, at, groups[0], wide)|, groups[1..], wide))
  }

  // ----- the parts grow at their ends

  /** Where the parts of the groups after the first `count` start. */
  function BlobsEnd(rva: nat, at: nat, groups: seq<Group>, wide: bool): nat {
    at + |Blobs(rva, at, groups, wide)|
  }

  lemma {:induction false} OneMoreName(at: nat, entries: seq<Entry>, entry: Entry)
    ensures NamesBytes(at, entries + [entry]) == NamesBytes(at, entries) + NameBytes(at + |NamesBytes(at, entries)|, entry)
    decreases |entries|
  {
    hide NameBytes;
    if entries == [] {
      assert (entries + [entry])[1..] == [];
    } else {
      var first := NameBytes(at, entries[0]);
      assert (entries + [entry])[1..] == entries[1..] + [entry];
      OneMoreName(at + |first|, entries[1..], entry);
      var rest := NamesBytes(at + |first|, entries[1..]);
      var last := NameBytes(at + |first| + |rest|, entry);
      Grouping(first, rest, last);
    }
  }

  lemma {:induction false} OneMoreThunk(rva: nat, at: nat, entries: seq<Entry>, entry: Entry, wide: bool)
    ensures ThunksBytes(rva, at, entries + [entry], wide)
         == ThunksBytes(rva, at, entries, wide) + ThunkBytes(Thunk(rva, at + |NamesBytes(at, entries)|, entry, wide), wide)
    decreases |entries|
  {
    hide NameBytes, ThunkBytes, Thunk;
    if entries == [] {
      assert (entries + [entry])[1..] == [];
    } else {
      var next := at + |NameBytes(at, entries[0])|;
      assert (entries + [entry])[1..] == entries[1..] + [entry];
      OneMoreThunk(rva, next, entries[1..], entry, wide);
      var first, rest := ThunkBytes(Thunk(rva, at, entries[0], wide), wide), ThunksBytes(rva, next, entries[1..], wide);
      var last := ThunkBytes(Thunk(rva, next + |NamesBytes(next, entries[1..])|, entry, wide), wide);
      Grouping(first, rest, last);
    }
  }

  lemma {:induction false} OneMoreBlob(rva: nat, at: nat, groups: seq<Group>, group: Group, wide: bool)
    ensures Blobs(rva, at, groups + [group], wide)
         == Blobs(rva, at, groups, wide) + Blob(rva, BlobsEnd(rva, at, groups, wide), group, wide)
    decreases |groups|
  {
    hide Blob, ModuleAt;
    if groups == [] {
      assert (groups + [group])[1..] == [];
    } else {
      var first := Blob(rva, at, groups[0], wide);
      assert (groups + [group])[1..] == groups[1..] + [group];
      OneMoreBlob(rva, at + |first|, groups[1..], group, wide);
      var rest := Blobs(rva, at + |first|, groups[1..], wide);
      var last := Blob(rva, at + |first| + |rest|, group, wide);
      Grouping(first, rest, last);
    }
  }

  lemma {:induction false} OneMoreDescriptor(rva: nat, at: nat, groups: seq<Group>, group: Group, wide: bool)
    ensures Descriptors(rva, at, groups + [group], wide)
         == Descriptors(rva, at, groups, wide) + Descriptor(rva, BlobsEnd(rva, at, groups, wide), group, wide)
    decreases |groups|
  {
    hide Blob, Descriptor, ModuleAt;
    if groups == [] {
      assert (groups + [group])[1..] == [];
    } else {
      var size := |Blob(rva, at, groups[0], wide)|;
      assert (groups + [group])[1..] == groups[1..] + [group];
      OneMoreDescriptor(rva, at + size, groups[1..], group, wide);
      var first, rest := Descriptor(rva, at, groups[0], wide), Descriptors(rva, at + size, groups[1..], wide);
      var last := Descriptor(rva, BlobsEnd(rva, at, groups, wide), group, wide);
      Grouping(first, rest, last);
    }
  }

  lemma {:induction false} OneMoreBuildable(rva: nat, at: nat, groups: seq<Group>, group: Group, wide: bool)
    ensures Buildable(rva, at, groups + [group], wide)
         == (&& Buildable(rva, at, groups, wide) && Writable(group)
             && rva + ModuleAt(BlobsEnd(rva, at, groups, wide), group, wide) < U32)
    decreases |groups|
  {
    hide Blob, Writable, ModuleAt;
    if groups == [] {
      assert (groups + [group])[1..] == [];
    } else {
      assert (groups + [group])[1..] == groups[1..] + [group];
      OneMoreBuildable(rva, at + |Blob(rva, at, groups[0], wide)|, groups[1..], group, wide);
    }
  }

  /** A table is built only if every part of it is. */
  lemma {:induction false} BuildableSoFar(rva: nat, at: nat, groups: seq<Group>, count: nat, wide: bool)
    requires count <= |groups| && Buildable(rva, at, groups, wide)
    ensures Buildable(rva, at, groups[..count], wide)
    decreases |groups|
  {
    hide Blob, Writable, ModuleAt;
    if count > 0 {
      assert groups[..count][1..] == groups[1..][..count - 1];
      BuildableSoFar(rva, at + |Blob(rva, at, groups[0], wide)|, groups[1..], count - 1, wide);
    }
  }

  // ----- building

  method AppendAscii(payload: seq<byte>, text: Text) returns (r: Option<seq<byte>>)
    ensures r == if Ascii(text) then Some(payload + (text + [0])) else None
  {
    if text == [] {
      return None;
    }
    for i := 0 to |text|
      invariant forall k :: 0 <= k < i ==> 0 < text[k] < 128
    {
      if text[i] == 0 || text[i] >= 128 {
        return None;
      }
    }
    assert payload + text + [0] == payload + (text + [0]);
    return Some(payload + text + [0]);
  }

  method AlignVec(payload: seq<byte>, alignment: nat) returns (r: seq<byte>)
    requires alignment == 2 || alignment == 4 || alignment == 8
    ensures r == payload + Zeros(Gap(|payload|, alignment)) && |r| % alignment == 0
  {
    r := payload + Zeros(Gap(|payload|, alignment));
    Multiple(|payload|, alignment);
  }

  lemma Multiple(at: nat, alignment: nat)
    requires alignment == 2 || alignment == 4 || alignment == 8
    ensures (at + Gap(at, alignment)) % alignment == 0
  {
  }

  method AppendName(payload: seq<byte>, name: Text, ordinal: nat) returns (r: Option<seq<byte>>, offset: nat)
    ensures r == if Ascii(name) then Some(payload + NameBytes(|payload|, Entry(Some(name), ordinal))) else None
    ensures offset == |payload| + |payload| % 2
  {
    hide Ascii;
    var aligned := AlignVec(payload, 2);
    offset := |aligned|;
    var zeros := Zeros(|payload| % 2);
    assert Zeros(Gap(|payload|, 2)) == zeros;
    r := AppendAscii(aligned + [0, 0], name);
    Grouping(payload + zeros, [0, 0], name + [0]);
    Grouping(payload, zeros, [0, 0] + (name + [0]));
  }

  predicate NamesAscii(entries: seq<Entry>) {
    forall e :: e in entries && e.name.Some? ==> Ascii(e.name.value)
  }

  lemma {:induction false} NamesGrow(at: nat, entries: seq<Entry>, count: nat)
    requires count <= |entries|
    ensures |NamesBytes(at, entries[..count])| <= |NamesBytes(at, entries)|
    decreases |entries|
  {
    hide NameBytes;
    if count > 0 {
      assert entries[..count][1..] == entries[1..][..count - 1];
      NamesGrow(at + |NameBytes(at, entries[0])|, entries[1..], count - 1);
    }
  }

  /** The lookup table after its first `count` thunks are in. */
  ghost function Lookup(head: seq<byte>, rva: nat, entries: seq<Entry>, count: nat, wide: bool): seq<byte>
    requires count <= |entries|
  {
    var names := |head| + (|entries| + 1) * ThunkWidth(wide);
    head + ThunksBytes(rva, names, entries[..count], wide) + Zeros((|entries| + 1 - count) * ThunkWidth(wide))
  }

  lemma LookupSize(head: seq<byte>, rva: nat, entries: seq<Entry>, count: nat, wide: bool)
    requires count <= |entries|
    ensures |Lookup(head, rva, entries, count, wide)| == |head| + (|entries| + 1) * ThunkWidth(wide)
  {
    assert |entries[..count]| == count;
  }

  lemma LookupStep(head: seq<byte>, rva: nat, entries: seq<Entry>, count: nat, thunk: seq<byte>, names: seq<byte>, wide: bool)
    requires count < |entries|
    requires var at := |head| + (|entries| + 1) * ThunkWidth(wide);
      thunk == ThunkBytes(Thunk(rva, at + |NamesBytes(at, entries[..count])|, entries[count], wide), wide)
    ensures |head| + count * ThunkWidth(wide) + |thunk| <= |Lookup(head, rva, entries, count, wide) + names|
    ensures Put(Lookup(head, rva, entries, count, wide) + names, |head| + count * ThunkWidth(wide), thunk)
         == Lookup(head, rva, entries, count + 1, wide) + names
  {
    hide ThunkBytes, NamesBytes, ThunksBytes, Thunk;
    var width := ThunkWidth(wide);
    var at := |head| + (|entries| + 1) * width;
    var before := head + ThunksBytes(rva, at, entries[..count], wide);
    ThunksSize(rva, at, entries[..count], wide);
    assert |entries[..count]| == count;
    assert |before| == |head| + count * width;
    var rest := Zeros((|entries| - count) * width);
    assert Zeros((|entries| + 1 - count) * width) == Zeros(width) + rest;
    assert Lookup(head, rva, entries, count, wide) + names == before + Zeros(width) + (rest + names);
    PutOver(before, Zeros(width), rest + names, thunk);
    assert entries[..count + 1] == entries[..count] + [entries[count]];
    OneMoreThunk(rva, at, entries[..count], entries[count], wide);
    assert before + thunk + (rest + names) == before + thunk + rest + names;
    assert head + (ThunksBytes(rva, at, entries[..count], wide) + thunk) == before + thunk;
  }

  lemma ThunksSize(rva: nat, at: nat, entries: seq<Entry>, wide: bool)
    ensures |ThunksBytes(rva, at, entries, wide)| == |entries| * ThunkWidth(wide)
  {
  }

  method WriteLookupThunks(start: seq<byte>, ghost head: seq<byte>, entries: seq<Entry>, rva: nat, lookup: nat, wide: bool)
    returns (r: Option<seq<byte>>)
    requires |head| == lookup && start == head + Zeros((|entries| + 1) * ThunkWidth(wide))
    ensures r.Some? ==> NamesAscii(entries)
    ensures r.Some? ==> r.value == Lookup(head, rva, entries, |entries|, wide) + NamesBytes(|start|, entries)
    ensures r.None? ==> !NamesAscii(entries) || rva + |start| + |NamesBytes(|start|, entries)| >= U32
  {
    hide Ascii, Lookup, ThunkBytes, NameBytes, NamesBytes, Thunk;
    var payload := start;
    LookupStarts(head, rva, entries, wide);
    for i := 0 to |entries|
      invariant NamesAscii(entries[..i])
      invariant payload == Lookup(head, rva, entries, i, wide) + NamesBytes(|start|, entries[..i])
    {
      var entry, thunk := entries[i], 0;
      ghost var names := NamesBytes(|start|, entries[..i]);
      ghost var at := |payload|;
      LookupSize(head, rva, entries, i, wide);
      assert at == |start| + |names|;
      assert entries[..i + 1] == entries[..i] + [entry];
      OneMoreName(|start|, entries[..i], entry);
      NamesGrow(|start|, entries, i + 1);
      ThunkPlace(rva, at, entry, wide);
      if entry.name.Some? {
        assert entry == Entry(Some(entry.name.value), entry.ordinal);
        var named, offset := AppendName(payload, entry.name.value, entry.ordinal);
        if named.None? {
          assert entry in entries;
          return None;
        }
        payload, thunk := named.value, rva + offset;
        if !wide && thunk >= U32 {
          return None;
        }
      } else {
        thunk := Flag(wide) + entry.ordinal % 0x1_0000;
      }
      Grouping(Lookup(head, rva, entries, i, wide), names, NameBytes(at, entry));
      LookupStep(head, rva, entries, i, ThunkBytes(thunk, wide), names + NameBytes(at, entry), wide);
      payload := Put(payload, lookup + i * ThunkWidth(wide), ThunkBytes(thunk, wide));
    }
    assert entries[..|entries|] == entries;
    return Some(payload);
  }

  lemma LookupStarts(head: seq<byte>, rva: nat, entries: seq<Entry>, wide: bool)
    ensures Lookup(head, rva, entries, 0, wide) + NamesBytes(|head| + (|entries| + 1) * ThunkWidth(wide), entries[..0])
         == head + Zeros((|entries| + 1) * ThunkWidth(wide))
  {
  }

  lemma ThunkPlace(rva: nat, at: nat, entry: Entry, wide: bool)
    ensures Thunk(rva, at, entry, wide)
         == if entry.name.Some? then rva + at + at % 2 else Flag(wide) + entry.ordinal % 0x1_0000
    ensures |NameBytes(at, entry)| >= if entry.name.Some? then at % 2 else 0
    ensures entry.name.None? ==> NameBytes(at, entry) == []
  {
  }

  // ----- one group, then the plan

  method WriteDescriptor(payload: seq<byte>, at: nat, group: Group, rva: nat, lookup: nat, name: nat) returns (r: Option<seq<byte>>)
    requires at + DESCRIPTOR_SIZE <= |payload| && payload[at..at + DESCRIPTOR_SIZE] == Zeros(DESCRIPTOR_SIZE)
    ensures r.Some? <==> rva + lookup < U32 && rva + name < U32
    ensures r.Some? ==>
      r.value == Put(payload, at, U32Bytes(rva + lookup) + Zeros(8) + U32Bytes(rva + name) + U32Bytes(group.firstThunk))
  {
    hide U32Bytes;
    if rva + lookup >= U32 || rva + name >= U32 {
      return None;
    }
    var a, b, c := U32Bytes(rva + lookup), U32Bytes(rva + name), U32Bytes(group.firstThunk);
    var written := Put(payload, at, a);
    written := Put(written, at + NAME_OFFSET, b);
    written := Put(written, at + IAT_OFFSET, c);
    DescriptorWritten(payload, at, a, b, c);
    return Some(written);
  }

  lemma DescriptorWritten(payload: seq<byte>, at: nat, a: seq<byte>, b: seq<byte>, c: seq<byte>)
    requires at + DESCRIPTOR_SIZE <= |payload| && payload[at..at + DESCRIPTOR_SIZE] == Zeros(DESCRIPTOR_SIZE)
    requires |a| == |b| == |c| == 4
    ensures Put(Put(Put(payload, at, a), at + NAME_OFFSET, b), at + IAT_OFFSET, c) == Put(payload, at, a + Zeros(8) + b + c)
  {
    var before, after := payload[..at], payload[at + DESCRIPTOR_SIZE..];
    assert payload == before + Zeros(DESCRIPTOR_SIZE) + after;
    assert payload == before + Zeros(4) + (Zeros(16) + after);
    PutOver(before, Zeros(4), Zeros(16) + after, a);
    assert before + a + (Zeros(16) + after) == (before + a + Zeros(8)) + Zeros(4) + (Zeros(4) + after);
    PutOver(before + a + Zeros(8), Zeros(4), Zeros(4) + after, b);
    assert before + a + Zeros(8) + b + (Zeros(4) + after) == (before + a + Zeros(8) + b) + Zeros(4) + after;
    PutOver(before + a + Zeros(8) + b, Zeros(4), after, c);
    PutOver(before, Zeros(DESCRIPTOR_SIZE), after, a + Zeros(8) + b + c);
    assert before + (a + Zeros(8) + b + c) + after == before + a + Zeros(8) + b + c + after;
  }

  method AddGroup(start: seq<byte>, descriptor: nat, group: Group, rva: nat, wide: bool) returns (r: Option<seq<byte>>)
    requires descriptor + DESCRIPTOR_SIZE <= |start| && start[descriptor..descriptor + DESCRIPTOR_SIZE] == Zeros(DESCRIPTOR_SIZE)
    requires group.firstThunk < U32
    ensures r.Some? <==> Writable(group) && rva + ModuleAt(|start|, group, wide) < U32
    ensures r.Some? ==>
      r.value == Put(start, descriptor, Descriptor(rva, |start|, group, wide)) + Blob(rva, |start|, group, wide)
  {
    hide Ascii, NamesBytes, ThunksBytes, U32Bytes, Lookup, Blob;
    var width := ThunkWidth(wide);
    var head := AlignVec(start, width);
    var lookup := |head|;
    var payload := head + Zeros((|group.entries| + 1) * width);
    ghost var names := |payload|;
    var looked := WriteLookupThunks(payload, head, group.entries, rva, lookup, wide);
    if looked.None? {
      return None;
    }
    ghost var before := looked.value;
    LookupSize(head, rva, group.entries, |group.entries|, wide);
    var name := |looked.value|;
    var named := AppendAscii(looked.value, group.moduleName);
    if named.None? {
      return None;
    }
    BlobBuilt(start, rva, group, wide);
    PutKeepsEnd(start, Blob(rva, |start|, group, wide), descriptor, Descriptor(rva, |start|, group, wide));
    r := WriteDescriptor(named.value, descriptor, group, rva, lookup, name);
  }

  lemma BlobBuilt(start: seq<byte>, rva: nat, group: Group, wide: bool)
    ensures var head := start + Zeros(Gap(|start|, ThunkWidth(wide)));
      Lookup(head, rva, group.entries, |group.entries|, wide)
      + NamesBytes(|head| + (|group.entries| + 1) * ThunkWidth(wide), group.entries) + (group.moduleName + [0])
      == start + Blob(rva, |start|, group, wide)
  {
    hide NamesBytes, ThunksBytes;
    var width := ThunkWidth(wide);
    var gap := Zeros(Gap(|start|, width));
    var head := start + gap;
    var at := NamesAt(|start|, group, wide);
    assert at == |head| + (|group.entries| + 1) * width;
    assert group.entries[..|group.entries|] == group.entries;
    var thunks, names := ThunksBytes(rva, at, group.entries, wide), NamesBytes(at, group.entries);
    var end, text := Zeros(width), group.moduleName + [0];
    assert Zeros((|group.entries| + 1 - |group.entries|) * width) == end;
    assert start + gap + thunks + end + names + text == start + (gap + (thunks + end + (names + text)));
  }

  lemma PutKeepsEnd(start: seq<byte>, end: seq<byte>, at: nat, bytes: seq<byte>)
    requires at + |bytes| <= |start|
    ensures Put(start + end, at, bytes) == Put(start, at, bytes) + end
    ensures (start + end)[at..at + |bytes|] == start[at..at + |bytes|]
  {
    assert (start + end)[at + |bytes|..] == start[at + |bytes|..] + end;
    assert (start + end)[..at] == start[..at];
  }

  method BuildImportPayload(existing: seq<byte>, groups: seq<Group>, rva: nat, wide: bool) returns (r: Option<seq<byte>>)
    requires forall g :: g in groups ==> g.firstThunk < U32
    ensures r == if Buildable(rva, HeaderSize(|existing|, |groups|), groups, wide) then Some(Payload(existing, groups, rva, wide))
                 else None
  {
    hide Blob, Blobs, Descriptor, Descriptors, Writable, ModuleAt, Buildable;
    var start := HeaderSize(|existing|, |groups|);
    var payload := existing + Zeros(DESCRIPTOR_SIZE * (|groups| + 1));
    PayloadStarts(existing, groups, rva, wide);
    for i := 0 to |groups|
      invariant Buildable(rva, start, groups[..i], wide)
      invariant payload == SoFar(existing, groups, i, rva, wide)
    {
      assert groups[..i + 1] == groups[..i] + [groups[i]];
      OneMoreBuildable(rva, start, groups[..i], groups[i], wide);
      PayloadStep(existing, groups, i, rva, wide);
      var added := AddGroup(payload, |existing| + i * DESCRIPTOR_SIZE, groups[i], rva, wide);
      if added.None? {
        if Buildable(rva, start, groups, wide) {
          BuildableSoFar(rva, start, groups, i + 1, wide);
        }
        return None;
      }
      payload := added.value;
    }
    assert groups[..|groups|] == groups;
    return Some(payload);
  }

  /** The payload after its first `count` groups. */
  ghost function SoFar(existing: seq<byte>, groups: seq<Group>, count: nat, rva: nat, wide: bool): seq<byte>
    requires count <= |groups|
  {
    var start := HeaderSize(|existing|, |groups|);
    existing + Descriptors(rva, start, groups[..count], wide) + Zeros(DESCRIPTOR_SIZE * (|groups| + 1 - count))
    + Blobs(rva, start, groups[..count], wide)
  }

  lemma PayloadStarts(existing: seq<byte>, groups: seq<Group>, rva: nat, wide: bool)
    ensures SoFar(existing, groups, 0, rva, wide) == existing + Zeros(DESCRIPTOR_SIZE * (|groups| + 1))
    ensures SoFar(existing, groups, |groups|, rva, wide) == Payload(existing, groups, rva, wide)
    ensures Buildable(rva, HeaderSize(|existing|, |groups|), groups[..0], wide)
  {
    assert groups[..|groups|] == groups;
    Grouping(existing, Descriptors(rva, HeaderSize(|existing|, |groups|), groups, wide), Zeros(DESCRIPTOR_SIZE));
  }

  lemma PayloadStep(existing: seq<byte>, groups: seq<Group>, count: nat, rva: nat, wide: bool)
    requires count < |groups|
    ensures var payload := SoFar(existing, groups, count, rva, wide);
      var at := |existing| + count * DESCRIPTOR_SIZE;
      && |payload| == BlobsEnd(rva, HeaderSize(|existing|, |groups|), groups[..count], wide)
      && at + DESCRIPTOR_SIZE <= |payload| && payload[at..at + DESCRIPTOR_SIZE] == Zeros(DESCRIPTOR_SIZE)
      && Put(payload, at, Descriptor(rva, |payload|, groups[count], wide)) + Blob(rva, |payload|, groups[count], wide)
         == SoFar(existing, groups, count + 1, rva, wide)
  {
    hide Blob, Blobs, Descriptor, Descriptors, ModuleAt, Put;
    var start := HeaderSize(|existing|, |groups|);
    var part := groups[..count];
    assert groups[..count + 1] == part + [groups[count]];
    OneMoreBlob(rva, start, part, groups[count], wide);
    OneMoreDescriptor(rva, start, part, groups[count], wide);
    DescriptorsSize(rva, start, part, wide);
    var first, rest := Zeros(DESCRIPTOR_SIZE), Zeros(DESCRIPTOR_SIZE * (|groups| - count));
    assert Zeros(DESCRIPTOR_SIZE * (|groups| + 1 - count)) == first + rest;
    var descriptors, blobs := Descriptors(rva, start, part, wide), Blobs(rva, start, part, wide);
    var at := BlobsEnd(rva, start, part, wide);
    var descriptor, blob := Descriptor(rva, at, groups[count], wide), Blob(rva, at, groups[count], wide);
    DescriptorSize(rva, at, groups[count], wide);
    FilledAndGrown(existing + descriptors, first, rest, blobs, descriptor, blob);
    Grouping(existing, descriptors, descriptor);
  }

  lemma FilledAndGrown(
      before: seq<byte>, first: seq<byte>, rest: seq<byte>, end: seq<byte>, bytes: seq<byte>, more: seq<byte>)
    requires |first| == |bytes|
    ensures var payload := before + (first + rest) + end;
      && |before| + |bytes| <= |payload| && payload[|before|..|before| + |bytes|] == first
      && Put(payload, |before|, bytes) + more == before + bytes + rest + (end + more)
  {
    assert before + (first + rest) + end == before + first + (rest + end);
    PutOver(before, first, rest + end, bytes);
    assert before + bytes + (rest + end) + more == before + bytes + rest + (end + more);
  }

  lemma DescriptorsSize(rva: nat, at: nat, groups: seq<Group>, wide: bool)
    ensures |Descriptors(rva, at, groups, wide)| == DESCRIPTOR_SIZE * |groups|
  {
  }

  lemma DescriptorSize(rva: nat, at: nat, group: Group, wide: bool)
    ensures |Descriptor(rva, at, group, wide)| == DESCRIPTOR_SIZE
  {
  }
}
