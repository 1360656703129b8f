/**
  * Moving resources back below the end of the original image: each moved leaf is copied to the first
  * free place of a region, and its record told where.
  */
module ReturnedLeaves {
  import opened Wrappers
  import opened Buffers
  import opened Bytes
  import opened Resources

  const SIZE_OFFSET := 4
  const ALIGNMENT := 8
  const SMALL_ALIGNMENT := 4

  /** A record's place, and where its data lies. */
  datatype Resource = Resource(entry: nat, rva: nat, size: nat)

  datatype Span = Span(start: nat, end: nat)

  /** The buffer after some leaves were returned, and where to; `restored` unless one could not be. */
  datatype Outcome = Outcome(bytes: seq<byte>, places: seq<nat>, restored: bool)

  datatype Restoration = Absent | Failed | Restored

  // ----- looking for a place

  predicate Free(bytes: seq<byte>, at: nat, data: seq<byte>) {
    at + |data| <= |bytes| && forall k :: 0 <= k < |data| ==> bytes[at + k] == 0 || bytes[at + k] == data[k]
  }

  predicate Overlaps(used: seq<Span>, at: nat, size: nat) {
    exists u :: u in used && at < u.end && u.start < at + size
  }

  function Search(bytes: seq<byte>, used: seq<Span>, data: seq<byte>, at: nat, limit: nat, step: nat): (r: Option<nat>)
    requires step > 0
    ensures r.Some? ==> r.value + |data| <= |bytes|
    decreases if at < limit then limit - at else 0
  {
    if at >= limit then None
    else if !Overlaps(used, at, |data|) && Free(bytes, at, data) then Some(at)
    else Search(bytes, used, data, at + step, limit, step)
  }

  function Minus(a: nat, b: nat): nat {
    if a < b then 0 else a - b
  }

  /** The linker's alignment is tried first; Windows only needs the smaller one. */
  function Place(bytes: seq<byte>, used: seq<Span>, data: seq<byte>, region: Span): (r: Option<nat>)
    ensures r.Some? ==> r.value + |data| <= |bytes|
  {
    var limit := Minus(region.end, |data|);
    var found := Search(bytes, used, data, region.start, limit, ALIGNMENT);
    if found.Some? then found else Search(bytes, used, data, region.start, limit, SMALL_ALIGNMENT)
  }

  predicate OnStep(place: nat, start: nat, step: nat)
    requires step == ALIGNMENT || step == SMALL_ALIGNMENT
  {
    place >= start && (if step == ALIGNMENT then (place - start) % ALIGNMENT == 0 else (place - start) % SMALL_ALIGNMENT == 0)
  }

  /** The first place that is free is found, and nothing exactly when none is. */
  lemma {:induction false} SearchIff(bytes: seq<byte>, used: seq<Span>, data: seq<byte>, at: nat, limit: nat, step: nat)
    requires step == ALIGNMENT || step == SMALL_ALIGNMENT
    ensures match Search(bytes, used, data, at, limit, step)
      case Some(found) =>
        && OnStep(found, at, step) && found < limit && !Overlaps(used, found, |data|) && Free(bytes, found, data)
        && (forall p: nat :: p < found && OnStep(p, at, step) ==> Overlaps(used, p, |data|) || !Free(bytes, p, data))
      case None => forall p: nat :: p < limit && OnStep(p, at, step) ==> Overlaps(used, p, |data|) || !Free(bytes, p, data)
    decreases if at < limit then limit - at else 0
  {
    hide Overlaps, Free, OnStep;
    StepsAgree(at, step);
    if at < limit {
      SearchIff(bytes, used, data, at + step, limit, step);
    }
  }

  lemma StepsAgree(at: nat, step: nat)
    requires step == ALIGNMENT || step == SMALL_ALIGNMENT
    ensures forall p: nat :: OnStep(p, at, step) <==> p == at || OnStep(p, at + step, step)
    ensures forall p: nat :: OnStep(p, at, step) ==> p >= at
  {
  }

  /** The data fits there: short of the region's end, clear of what is in use, over zeros or the same bytes. */
  ghost predicate Suits(bytes: seq<byte>, used: seq<Span>, data: seq<byte>, region: Span, at: nat) {
    && region.start <= at && at + |data| < region.end && at + |data| <= |bytes|
    && (forall u :: u in used ==> u.end <= at || at + |data| <= u.start)
    && forall k :: 0 <= k < |data| ==> bytes[at + k] == 0 || bytes[at + k] == data[k]
  }

  /** A multiple of 8 from the region's start is chosen if one suits, else a multiple of 4; always the lowest. */
  lemma PlaceIff(bytes: seq<byte>, used: seq<Span>, data: seq<byte>, region: Span)
    ensures var eighth := exists at: nat :: at >= region.start && (at - region.start) % 8 == 0 && Suits(bytes, used, data, region, at);
      match Place(bytes, used, data, region)
      case Some(place) =>
        && Suits(bytes, used, data, region, place)
        && (if eighth then (place - region.start) % 8 == 0 else (place - region.start) % 4 == 0)
        && (forall at: nat :: region.start <= at < place && (at - region.start) % (if eighth then 8 else 4) == 0 ==>
              !Suits(bytes, used, data, region, at))
      case None => forall at: nat :: at >= region.start && (at - region.start) % 4 == 0 ==> !Suits(bytes, used, data, region, at)
  {
    hide Overlaps, Free, Suits;
    var limit := Minus(region.end, |data|);
    SearchIff(bytes, used, data, region.start, limit, ALIGNMENT);
    SearchIff(bytes, used, data, region.start, limit, SMALL_ALIGNMENT);
    forall at: nat
      ensures Suits(bytes, used, data, region, at) <==>
        region.start <= at < limit && !Overlaps(used, at, |data|) && Free(bytes, at, data)
    {
      SuitsIff(bytes, used, data, region, at);
    }
  }

  lemma SuitsIff(bytes: seq<byte>, used: seq<Span>, data: seq<byte>, region: Span, at: nat)
    ensures Suits(bytes, used, data, region, at) <==>
      region.start <= at < Minus(region.end, |data|) && !Overlaps(used, at, |data|) && Free(bytes, at, data)
  {
  }

  // ----- returning the leaves

  function Chosen(bytes: seq<byte>, used: seq<Span>, region: Span, leaf: Resource): (r: Option<nat>)
    ensures r.Some? ==> leaf.rva + leaf.size <= |bytes| && r.value + leaf.size <= |bytes|
  {
    if leaf.rva + leaf.size > |bytes| then None else Place(bytes, used, bytes[leaf.rva..leaf.rva + leaf.size], region)
  }

  function Copied(bytes: seq<byte>, leaf: Resource, place: nat): (r: seq<byte>)
    requires leaf.rva + leaf.size <= |bytes| && place + leaf.size <= |bytes|
    ensures |r| == |bytes|
  {
    Put(bytes, place, bytes[leaf.rva..leaf.rva + leaf.size])
  }

  function Told(bytes: seq<byte>, leaf: Resource, place: nat): (r: seq<byte>)
    requires leaf.rva + leaf.size <= |bytes| && place + leaf.size <= |bytes| && leaf.entry + 4 <= |bytes|
    ensures |r| == |bytes|
  {
    Put(Copied(bytes, leaf, place), leaf.entry, U32Bytes(place))
  }

  function Return(bytes: seq<byte>, used: seq<Span>, region: Span, moved: seq<Resource>): (r: Outcome)
    ensures |r.bytes| == |bytes|
    decreases |moved|
  {
    if moved == [] then Outcome(bytes, [], true)
    else
      var leaf, chosen := moved[0], Chosen(bytes, used, region, moved[0]);
      if chosen.None? then Outcome(bytes, [], false)
      else
        var place := chosen.value;
        if place >= U32 || leaf.entry + 4 > |bytes| then Outcome(Copied(bytes, leaf, place), [place], false)
        else
          var rest := Return(Told(bytes, leaf, place), used + [Span(place, place + leaf.size)], region, moved[1..]);
          Outcome(rest.bytes, [place] + rest.places, rest.restored)
  }

  // ----- what a place is like

  lemma PlaceIsFree(bytes: seq<byte>, used: seq<Span>, data: seq<byte>, region: Span)
    requires Place(bytes, used, data, region).Some?
    ensures var place := Place(bytes, used, data, region).value;
      && region.start <= place && place + |data| < region.end && !Overlaps(used, place, |data|) && Free(bytes, place, data)
      && OnStep(place, region.start, SMALL_ALIGNMENT)
  {
    hide Overlaps, Free;
    SearchIff(bytes, used, data, region.start, Minus(region.end, |data|), ALIGNMENT);
    SearchIff(bytes, used, data, region.start, Minus(region.end, |data|), SMALL_ALIGNMENT);
  }

  predicate Inside(at: nat, span: Span) {
    span.start <= at < span.end
  }

  predicate InUse(used: seq<Span>, at: nat) {
    exists u :: u in used && Inside(at, u)
  }

  predicate InEntry(leaf: Resource, at: nat) {
    leaf.entry <= at < leaf.entry + 4
  }

  predicate NoEntry(moved: seq<Resource>, at: nat) {
    forall leaf :: leaf in moved ==> !InEntry(leaf, at)
  }

  /** Records stand in ranges that are in use, and data above the region. */
  ghost predicate Apart(used: seq<Span>, region: Span, moved: seq<Resource>) {
    && (forall leaf, at: nat :: leaf in moved && InEntry(leaf, at) ==> InUse(used, at))
    && (forall leaf :: leaf in moved ==> region.end <= leaf.rva)
  }

  lemma FreeOfUse(used: seq<Span>, place: nat, size: nat, at: nat)
    requires !Overlaps(used, place, size) && place <= at < place + size
    ensures !InUse(used, at)
  {
  }

  lemma StillApart(used: seq<Span>, region: Span, moved: seq<Resource>, more: Span)
    requires Apart(used, region, moved) && moved != []
    ensures Apart(used + [more], region, moved[1..])
    ensures forall at :: InUse(used, at) ==> InUse(used + [more], at)
  {
    forall at | InUse(used, at)
      ensures InUse(used + [more], at)
    {
      var u :| u in used && Inside(at, u);
      assert u in used + [more];
    }
    assert forall leaf :: leaf in moved[1..] ==> leaf in moved;
  }

  /** What the first leaf's step comes to, and what is left to do. */
  lemma FirstStep(bytes: seq<byte>, used: seq<Span>, region: Span, moved: seq<Resource>) returns (place: nat)
    requires moved != [] && Return(bytes, used, region, moved).restored
    ensures var leaf := moved[0];
      && Chosen(bytes, used, region, leaf) == Some(place) && place < U32 && leaf.entry + 4 <= |bytes|
      && region.start <= place && place + leaf.size < region.end && OnStep(place, region.start, SMALL_ALIGNMENT)
      && !Overlaps(used, place, leaf.size) && Free(bytes, place, bytes[leaf.rva..leaf.rva + leaf.size])
      && var rest := Return(Told(bytes, leaf, place), used + [Span(place, place + leaf.size)], region, moved[1..]);
      && rest.restored && Return(bytes, used, region, moved) == Outcome(rest.bytes, [place] + rest.places, true)
  {
    hide Overlaps, Free, Place, OnStep, Told;
    var leaf := moved[0];
    place := Chosen(bytes, used, region, leaf).value;
    PlaceIsFree(bytes, used, bytes[leaf.rva..leaf.rva + leaf.size], region);
  }

  lemma ToldBytes(bytes: seq<byte>, leaf: Resource, place: nat)
    requires leaf.rva + leaf.size <= |bytes| && place + leaf.size <= |bytes| && leaf.entry + 4 <= |bytes| && place < U32
    ensures forall at :: 0 <= at < |bytes| && !InEntry(leaf, at) && !(place <= at < place + leaf.size) ==>
              Told(bytes, leaf, place)[at] == bytes[at]
    ensures forall at :: place <= at < place + leaf.size && !InEntry(leaf, at) ==>
              Told(bytes, leaf, place)[at] == bytes[leaf.rva + (at - place)]
    ensures U32At(Told(bytes, leaf, place), leaf.entry) == place
  {
    hide U32Bytes, U32At;
    var told := Told(bytes, leaf, place);
    assert told[leaf.entry..leaf.entry + 4] == U32Bytes(place);
    U32RoundTrip(told, leaf.entry, place);
  }

  lemma NothingMoved(bytes: seq<byte>, used: seq<Span>, region: Span)
    ensures Return(bytes, used, region, []) == Outcome(bytes, [], true)
  {
  }

  // ----- what stays

  /** Bytes in use, and bytes outside the region, stay as they are, unless a record's pointer holds them. */
  lemma {:induction false} BytesStay(bytes: seq<byte>, used: seq<Span>, region: Span, moved: seq<Resource>, at: nat)
    requires Return(bytes, used, region, moved).restored && Apart(used, region, moved)
    requires at < |bytes| && (InUse(used, at) || !Inside(at, region)) && forall leaf :: leaf in moved ==> !InEntry(leaf, at)
    ensures Return(bytes, used, region, moved).bytes[at] == bytes[at]
    decreases |moved|
  {
    hide Apart, Told, Return, InEntry, Overlaps, Free, InUse, OnStep;
    if moved == [] {
      NothingMoved(bytes, used, region);
    } else {
      var place := FirstStep(bytes, used, region, moved);
      var leaf := moved[0];
      var span := Span(place, place + leaf.size);
      StillApart(used, region, moved, span);
      ToldBytes(bytes, leaf, place);
      if place <= at < place + leaf.size {
        FreeOfUse(used, place, leaf.size, at);
      }
      assert leaf in moved;
      BytesStay(Told(bytes, leaf, place), used + [span], region, moved[1..], at);
    }
  }

  // ----- what a leaf holds when its turn comes

  /** The record's pointer, written if it is inside the image. */
  function Pointing(bytes: seq<byte>, leaf: Resource, place: nat): (r: seq<byte>)
    ensures |r| == |bytes|
  {
    if leaf.entry + 4 <= |bytes| then Put(bytes, leaf.entry, U32Bytes(place)) else bytes
  }

  /** The image with these leaves' records told where they went, one after the other. */
  function Pointed(bytes: seq<byte>, moved: seq<Resource>, places: seq<nat>): (r: seq<byte>)
    requires |moved| == |places|
    ensures |r| == |bytes|
    decreases |moved|
  {
    if moved == [] then bytes else Pointed(Pointing(bytes, moved[0], places[0]), moved[1..], places[1..])
  }

  /** The data of leaf `i` once the records before it were told. */
  function DataThen(bytes: seq<byte>, moved: seq<Resource>, places: seq<nat>, i: nat): (r: seq<byte>)
    requires i < |moved| == |places| && moved[i].rva + moved[i].size <= |bytes|
    ensures |r| == moved[i].size
  {
    Pointed(bytes, moved[..i], places[..i])[moved[i].rva..moved[i].rva + moved[i].size]
  }

  /** Where two images agree, they agree after the same pointers were written. */
  lemma {:induction false} PointedAgree(a: seq<byte>, b: seq<byte>, moved: seq<Resource>, places: seq<nat>, at: nat)
    requires |moved| == |places| && at < |a| == |b| && a[at] == b[at]
    ensures Pointed(a, moved, places)[at] == Pointed(b, moved, places)[at]
    decreases |moved|
  {
    hide U32Bytes;
    if moved != [] {
      PointedAgree(Pointing(a, moved[0], places[0]), Pointing(b, moved[0], places[0]), moved[1..], places[1..], at);
    }
  }

  /** Bytes outside the records' pointers stay. */
  lemma {:induction false} PointedElsewhere(bytes: seq<byte>, moved: seq<Resource>, places: seq<nat>, at: nat)
    requires |moved| == |places| && at < |bytes| && NoEntry(moved, at)
    ensures Pointed(bytes, moved, places)[at] == bytes[at]
    decreases |moved|
  {
    hide U32Bytes, InEntry;
    if moved != [] {
      assert moved[0] in moved && forall leaf :: leaf in moved[1..] ==> leaf in moved;
      OutsideThePointer(bytes, moved[0], places[0], at);
      PointedElsewhere(Pointing(bytes, moved[0], places[0]), moved[1..], places[1..], at);
    }
  }

  lemma OutsideThePointer(bytes: seq<byte>, leaf: Resource, place: nat, at: nat)
    requires at < |bytes| && !InEntry(leaf, at)
    ensures Pointing(bytes, leaf, place)[at] == bytes[at]
  {
  }

  // ----- every leaf is sound

  /** What is promised of the leaf that came to stand at `place`, with the data it then had. */
  ghost predicate Sound(
      bytes: seq<byte>, result: seq<byte>, used: seq<Span>, region: Span, leaf: Resource, place: nat, data: seq<byte>)
    requires |bytes| == |result|
  {
    && |data| == leaf.size && leaf.rva + leaf.size <= |bytes|
    && region.start <= place && place + leaf.size < region.end <= leaf.rva && OnStep(place, region.start, SMALL_ALIGNMENT)
    && !Overlaps(used, place, leaf.size)
    && StartsAt(result, place, data) && Free(bytes, place, data)
  }

  lemma FirstIsSound(bytes: seq<byte>, used: seq<Span>, region: Span, moved: seq<Resource>) returns (place: nat)
    requires moved != [] && Return(bytes, used, region, moved).restored && Apart(used, region, moved)
    ensures Return(bytes, used, region, moved).places != [] && Return(bytes, used, region, moved).places[0] == place
    ensures moved[0].rva + moved[0].size <= |bytes|
    ensures Sound(bytes, Return(bytes, used, region, moved).bytes, used, region, moved[0], place,
                  bytes[moved[0].rva..moved[0].rva + moved[0].size])
  {
    hide Apart, Told, Return, Overlaps, Free, InUse, OnStep;
    place := FirstStep(bytes, used, region, moved);
    var leaf, result := moved[0], Return(bytes, used, region, moved).bytes;
    var span := Span(place, place + leaf.size);
    var told := Told(bytes, leaf, place);
    ToldBytes(bytes, leaf, place);
    StillApart(used, region, moved, span);
    AboveTheRegion(used, region, moved, leaf);
    forall at | place <= at < place + leaf.size
      ensures result[at] == bytes[leaf.rva + (at - place)]
    {
      FreeOfUse(used, place, leaf.size, at);
      EntriesInUse(used, region, moved, at);
      SpanInUse(used, span, at);
      BytesStay(told, used + [span], region, moved[1..], at);
    }
    assert result[place..place + leaf.size] == bytes[leaf.rva..leaf.rva + leaf.size];
  }

  lemma AboveTheRegion(used: seq<Span>, region: Span, moved: seq<Resource>, leaf: Resource)
    requires Apart(used, region, moved) && leaf in moved
    ensures region.end <= leaf.rva
  {
  }

  lemma EntriesInUse(used: seq<Span>, region: Span, moved: seq<Resource>, at: nat)
    requires Apart(used, region, moved) && !InUse(used, at)
    ensures forall leaf :: leaf in moved ==> !InEntry(leaf, at)
  {
    hide InUse;
  }

  lemma SpanInUse(used: seq<Span>, span: Span, at: nat)
    requires Inside(at, span)
    ensures InUse(used + [span], at)
  {
    assert span in used + [span];
  }

  lemma StillSound(
      bytes: seq<byte>, result: seq<byte>, used: seq<Span>, region: Span, first: Resource, at: nat, leaf: Resource, place: nat,
      data: seq<byte>)
    requires first.rva + first.size <= |bytes| && at + first.size <= |bytes| && first.entry + 4 <= |bytes| && at < U32
    requires |bytes| == |result| && Sound(Told(bytes, first, at), result, used + [Span(at, at + first.size)], region, leaf, place, data)
    requires forall k: nat :: InEntry(first, k) ==> InUse(used, k)
    ensures Sound(bytes, result, used, region, leaf, place, data)
    ensures !Overlaps([Span(at, at + first.size)], place, leaf.size)
  {
    hide OnStep, Told;
    var span, told := Span(at, at + first.size), Told(bytes, first, at);
    ToldBytes(bytes, first, at);
    FewerOverlaps(used, span, place, leaf.size);
    forall k | place <= k < place + leaf.size
      ensures told[k] == bytes[k]
    {
      FreeOfUse(used, place, leaf.size, k);
      FreeOfUse([span], place, leaf.size, k);
      assert span in [span] && !Inside(k, span);
    }
  }

  lemma FewerOverlaps(used: seq<Span>, span: Span, place: nat, size: nat)
    requires !Overlaps(used + [span], place, size)
    ensures !Overlaps(used, place, size) && !Overlaps([span], place, size)
  {
    assert forall u :: u in used || u in [span] ==> u in used + [span];
  }

  /** A leaf's data does not depend on what was copied into the region, only on the pointers. */
  lemma SameDataThen(bytes: seq<byte>, region: Span, moved: seq<Resource>, place: nat, places: seq<nat>, i: nat)
    requires 0 < i < |moved| == |places| + 1 && moved[i].rva + moved[i].size <= |bytes|
    requires moved[0].rva + moved[0].size <= |bytes| && place + moved[0].size <= |bytes| && moved[0].entry + 4 <= |bytes|
    requires place + moved[0].size <= region.end <= moved[i].rva
    ensures moved[1..][i - 1] == moved[i]
    ensures DataThen(Told(bytes, moved[0], place), moved[1..], places, i - 1) == DataThen(bytes, moved, [place] + places, i)
  {
    hide U32Bytes, Pointed;
    var told, pointing := Told(bytes, moved[0], place), Pointing(bytes, moved[0], place);
    var leaves, all := moved[1..][..i - 1], ([place] + places)[..i];
    assert moved[..i][1..] == leaves && all[1..] == places[..i - 1];
    OnePointed(bytes, moved[..i], all);
    var a, b := Pointed(told, leaves, places[..i - 1]), Pointed(pointing, leaves, places[..i - 1]);
    forall at | moved[i].rva <= at < moved[i].rva + moved[i].size
      ensures a[at] == b[at]
    {
      PointedAgree(told, pointing, leaves, places[..i - 1], at);
    }
  }

  lemma OnePointed(bytes: seq<byte>, moved: seq<Resource>, places: seq<nat>)
    requires |moved| == |places| > 0
    ensures Pointed(bytes, moved, places) == Pointed(Pointing(bytes, moved[0], places[0]), moved[1..], places[1..])
  {
  }

  lemma NonePointed(bytes: seq<byte>, moved: seq<Resource>, places: seq<nat>)
    requires 0 < |moved| == |places| && moved[0].rva + moved[0].size <= |bytes|
    ensures DataThen(bytes, moved, places, 0) == bytes[moved[0].rva..moved[0].rva + moved[0].size]
  {
  }

  ghost predicate AllSound(
      bytes: seq<byte>, result: seq<byte>, used: seq<Span>, region: Span, moved: seq<Resource>, places: seq<nat>)
    requires |bytes| == |result|
  {
    && |places| == |moved|
    && (forall i :: 0 <= i < |moved| ==>
          && moved[i].rva + moved[i].size <= |bytes|
          && Sound(bytes, result, used, region, moved[i], places[i], DataThen(bytes, moved, places, i)))
    && (forall i, j :: 0 <= i < j < |moved| ==> !Overlaps([Span(places[i], places[i] + moved[i].size)], places[j], moved[j].size))
  }

  /** Every returned leaf is sound, and no two of them share a byte. */
  lemma {:induction false} AllAreSound(bytes: seq<byte>, used: seq<Span>, region: Span, moved: seq<Resource>)
    requires Return(bytes, used, region, moved).restored && Apart(used, region, moved)
    ensures AllSound(bytes, Return(bytes, used, region, moved).bytes, used, region, moved, Return(bytes, used, region, moved).places)
    decreases |moved|
  {
    hide Apart, Told, Return, Overlaps, Free, InUse, OnStep, Sound, InEntry, AllSound, DataThen;
    if moved == [] {
      NothingMoved(bytes, used, region);
      NoneSound(bytes, used, region);
    } else {
      var place := FirstStep(bytes, used, region, moved);
      var leaf, rest := moved[0], moved[1..];
      var span, told := Span(place, place + leaf.size), Told(bytes, leaf, place);
      var again := FirstIsSound(bytes, used, region, moved);
      StillApart(used, region, moved, span);
      AllAreSound(told, used + [span], region, rest);
      var below := Return(told, used + [span], region, rest);
      FirstInUse(used, region, moved);
      NumberOfPlaces(told, used + [span], region, rest);
      NonePointed(bytes, moved, [place] + below.places);
      forall i | 0 < i < |moved|
        ensures moved[i].rva + moved[i].size <= |bytes|
        ensures Sound(bytes, below.bytes, used, region, moved[i], below.places[i - 1], DataThen(bytes, moved, [place] + below.places, i))
        ensures !Overlaps([span], below.places[i - 1], moved[i].size)
      {
        OneOfAll(told, below.bytes, used + [span], region, rest, below.places, i - 1);
        AboveTheRegion(used, region, moved, moved[i]);
        SameDataThen(bytes, region, moved, place, below.places, i);
        StillSound(bytes, below.bytes, used, region, leaf, place, moved[i], below.places[i - 1],
                   DataThen(bytes, moved, [place] + below.places, i));
      }
      AllTogether(bytes, told, below.bytes, used, region, moved, place, below.places);
    }
  }

  lemma NoneSound(bytes: seq<byte>, used: seq<Span>, region: Span)
    ensures AllSound(bytes, bytes, used, region, [], [])
  {
  }

  lemma OneOfAll(
      bytes: seq<byte>, result: seq<byte>, used: seq<Span>, region: Span, moved: seq<Resource>, places: seq<nat>, i: nat)
    requires |bytes| == |result| && AllSound(bytes, result, used, region, moved, places) && i < |moved|
    ensures |places| == |moved| && moved[i].rva + moved[i].size <= |bytes|
    ensures Sound(bytes, result, used, region, moved[i], places[i], DataThen(bytes, moved, places, i))
  {
  }

  lemma AllTogether(
      bytes: seq<byte>, told: seq<byte>, result: seq<byte>, used: seq<Span>, region: Span, moved: seq<Resource>,
      place: nat, places: seq<nat>)
    requires |bytes| == |told| == |result| && moved != []
    requires AllSound(told, result, used + [Span(place, place + moved[0].size)], region, moved[1..], places)
    requires moved[0].rva + moved[0].size <= |bytes|
    requires Sound(bytes, result, used, region, moved[0], place, DataThen(bytes, moved, [place] + places, 0))
    requires forall i :: 0 < i < |moved| ==>
      && moved[i].rva + moved[i].size <= |bytes|
      && Sound(bytes, result, used, region, moved[i], places[i - 1], DataThen(bytes, moved, [place] + places, i))
      && !Overlaps([Span(place, place + moved[0].size)], places[i - 1], moved[i].size)
    ensures AllSound(bytes, result, used, region, moved, [place] + places)
  {
    hide Sound, Overlaps, DataThen;
    forall i, j | 0 < i < j < |moved|
      ensures !Overlaps([Span(places[i - 1], places[i - 1] + moved[i].size)], places[j - 1], moved[j].size)
    {
      assert moved[i] == moved[1..][i - 1] && moved[j] == moved[1..][j - 1];
    }
  }

  lemma FirstInUse(used: seq<Span>, region: Span, moved: seq<Resource>)
    requires Apart(used, region, moved) && moved != []
    ensures forall k: nat :: InEntry(moved[0], k) ==> InUse(used, k)
  {
    hide InUse, InEntry;
    assert moved[0] in moved;
  }

  /** A record points at its leaf's place, unless a later leaf's record overlaps it. */
  lemma {:induction false} RecordsPoint(bytes: seq<byte>, used: seq<Span>, region: Span, moved: seq<Resource>, i: nat)
    requires Return(bytes, used, region, moved).restored && Apart(used, region, moved) && i < |moved|
    requires forall j, at: nat :: i < j < |moved| && InEntry(moved[i], at) ==> !InEntry(moved[j], at)
    ensures |Return(bytes, used, region, moved).places| == |moved|
    ensures ReadU32(Return(bytes, used, region, moved).bytes, moved[i].entry) == Some(Return(bytes, used, region, moved).places[i])
    decreases |moved|
  {
    hide Apart, Told, Return, Overlaps, Free, InUse, OnStep, U32At, AllSound;
    AllAreSound(bytes, used, region, moved);
    NumberOfPlaces(bytes, used, region, moved);
    var place := FirstStep(bytes, used, region, moved);
    var leaf, rest := moved[0], moved[1..];
    var span, told := Span(place, place + leaf.size), Told(bytes, leaf, place);
    StillApart(used, region, moved, span);
    if i == 0 {
      ToldBytes(bytes, leaf, place);
      forall at: nat | InEntry(leaf, at)
        ensures Return(told, used + [span], region, rest).bytes[at] == told[at]
      {
        EntryInUse(used, region, moved, at);
        BytesStay(told, used + [span], region, rest, at);
      }
      SameU32(told, Return(told, used + [span], region, rest).bytes, leaf.entry);
    } else {
      RecordsPoint(told, used + [span], region, rest, i - 1);
    }
  }

  lemma NumberOfPlaces(bytes: seq<byte>, used: seq<Span>, region: Span, moved: seq<Resource>)
    requires var r := Return(bytes, used, region, moved); AllSound(bytes, r.bytes, used, region, moved, r.places)
    ensures |Return(bytes, used, region, moved).places| == |moved|
  {
  }

  lemma EntryInUse(used: seq<Span>, region: Span, moved: seq<Resource>, at: nat)
    requires Apart(used, region, moved) && moved != [] && InEntry(moved[0], at)
    ensures InUse(used, at)
  {
  }

  lemma SameU32(a: seq<byte>, b: seq<byte>, at: nat)
    requires at + 4 <= |a| == |b| && forall k :: at <= k < at + 4 ==> a[k] == b[k]
    ensures U32At(a, at) == U32At(b, at)
  {
  }

  // ----- the whole tree's leaves

  function LeavesFrom(src: Block, entries: seq<nat>): seq<Resource> {
    if entries == [] then []
    else
      var rva, size := ReadU32(src.bytes, src.start + entries[0]), ReadU32(src.bytes, src.start + entries[0] + SIZE_OFFSET);
      (if rva.Some? && size.Some? then [Resource(src.start + entries[0], rva.value, size.value)] else []) + LeavesFrom(src, entries[1..])
  }

  function MovedLeaves(leaves: seq<Resource>, end: nat): seq<Resource> {
    if leaves == [] then []
    else (if leaves[0].rva >= end then [leaves[0]] else []) + MovedLeaves(leaves[1..], end)
  }

  /** What the leaves left in place take up. */
  function KeptSpans(leaves: seq<Resource>, end: nat): seq<Span> {
    if leaves == [] then []
    else (if leaves[0].rva < end then [Span(leaves[0].rva, leaves[0].rva + leaves[0].size)] else []) + KeptSpans(leaves[1..], end)
  }

  function UsedSpans(src: Block, tree: Tree, end: nat): seq<Span> {
    KeptSpans(LeavesFrom(src, tree.leaves), end) + [Span(src.start, src.start + tree.length)]
  }

  /** Whether every moved leaf was returned, and the bytes that leaves. */
  function ReturnMoved(src: Block, region: Span, end: nat): (Restoration, seq<byte>) {
    var tree := WalkResources(src);
    if tree.None? then (Failed, src.bytes)
    else
      var moved := MovedLeaves(LeavesFrom(src, tree.value.leaves), end);
      if moved == [] then (Absent, src.bytes)
      else
        var r := Return(src.bytes, UsedSpans(src, tree.value, end), region, moved);
        (if r.restored then Restored else Failed, r.bytes)
  }

  // ----- the records of a walked tree lie in it

  ghost predicate RecordsInside(tree: Tree) {
    forall leaf :: leaf in tree.leaves ==> leaf + RECORD_SIZE <= tree.length
  }

  lemma {:induction false} TableStaysInside(src: Block, table: nat, depth: nat, tree: Tree)
    requires RecordsInside(tree) && WalkTable(src, table, depth, tree).Some?
    ensures RecordsInside(WalkTable(src, table, depth, tree).value)
    decreases MAX_DEPTH - depth, 0, 0
  {
    hide Entries, WalkEntries;
    EntriesStayInside(src, Entries(src, table).value, depth, tree.(length := Max(tree.length, TableEnd(src, table))));
  }

  lemma {:induction false} EntriesStayInside(src: Block, entries: seq<Entry>, depth: nat, tree: Tree)
    requires depth < MAX_DEPTH && RecordsInside(tree) && WalkEntries(src, entries, depth, tree).Some?
    ensures RecordsInside(WalkEntries(src, entries, depth, tree).value)
    decreases MAX_DEPTH - depth - 1, 1, |entries|
  {
    hide Entries, WalkTable, StringEnd;
    if entries != [] {
      var e := entries[0];
      if Marked(e.target) {
        var nameEnd := if Marked(e.name) then StringEnd(src, e.name).value else 0;
        TableStaysInside(src, Unmarked(e.target), depth + 1, Tree(Max(tree.length, nameEnd), tree.leaves, tree.budget - 1));
      }
      EntriesStayInside(src, entries[1..], depth, WalkEntry(src, e, depth, tree).value);
    }
  }

  lemma {:induction false} MovedFrom(src: Block, entries: seq<nat>, end: nat)
    ensures forall leaf :: leaf in MovedLeaves(LeavesFrom(src, entries), end) ==>
              leaf.rva >= end && exists entry :: entry in entries && leaf.entry == src.start + entry
  {
    if entries != [] {
      MovedFrom(src, entries[1..], end);
      var rva, size := ReadU32(src.bytes, src.start + entries[0]), ReadU32(src.bytes, src.start + entries[0] + SIZE_OFFSET);
      var leaves, rest := LeavesFrom(src, entries), LeavesFrom(src, entries[1..]);
      assert entries[0] in entries && forall entry :: entry in entries[1..] ==> entry in entries;
      if rva.Some? && size.Some? {
        assert leaves[0] == Resource(src.start + entries[0], rva.value, size.value) && leaves[1..] == rest;
      } else {
        assert leaves == rest;
      }
    }
  }

  lemma MovedAreApart(src: Block, region: Span, end: nat)
    requires WalkResources(src).Some? && region.end <= end
    ensures var tree := WalkResources(src).value;
      Apart(UsedSpans(src, tree, end), region, MovedLeaves(LeavesFrom(src, tree.leaves), end))
  {
    hide LeavesFrom, MovedLeaves, KeptSpans, WalkTable;
    var tree := WalkResources(src).value;
    var moved, used := MovedLeaves(LeavesFrom(src, tree.leaves), end), UsedSpans(src, tree, end);
    TableStaysInside(src, 0, 0, Tree(0, [], MAX_ENTRIES));
    MovedFrom(src, tree.leaves, end);
    var whole := Span(src.start, src.start + tree.length);
    assert whole in used;
    forall leaf, at: nat | leaf in moved && InEntry(leaf, at)
      ensures InUse(used, at)
    {
      assert Inside(at, whole);
    }
  }

  /**
    * With the region below the original end: every moved leaf ends up inside the region, apart from
    * the tree, the leaves left in place and the other returned leaves, over bytes that were zero or
    * the same. It holds the data it had in the image, with the pointers of the records before it.
    */
  lemma LeavesReturnSoundly(src: Block, region: Span, end: nat)
    requires WalkResources(src).Some? && region.end <= end
    requires ReturnMoved(src, region, end).0 == Restored
    ensures var tree := WalkResources(src).value;
      var moved, used := MovedLeaves(LeavesFrom(src, tree.leaves), end), UsedSpans(src, tree, end);
      var r := Return(src.bytes, used, region, moved);
      && ReturnMoved(src, region, end).1 == r.bytes && AllSound(src.bytes, r.bytes, used, region, moved, r.places)
      && (forall at :: 0 <= at < |src.bytes| && (InUse(used, at) || !Inside(at, region)) && NoEntry(moved, at) ==>
            r.bytes[at] == src.bytes[at])
  {
    hide LeavesFrom, MovedLeaves, KeptSpans, WalkTable, Return, Apart, AllSound, InEntry, InUse;
    var tree := WalkResources(src).value;
    var moved, used := MovedLeaves(LeavesFrom(src, tree.leaves), end), UsedSpans(src, tree, end);
    var r := Return(src.bytes, used, region, moved);
    MovedAreApart(src, region, end);
    AllAreSound(src.bytes, used, region, moved);
    forall at | 0 <= at < |src.bytes| && (InUse(used, at) || !Inside(at, region)) && NoEntry(moved, at)
      ensures r.bytes[at] == src.bytes[at]
    {
      BytesStay(src.bytes, used, region, moved, at);
    }
  }

  /** And each leaf's record points at it, if no later record overlaps the pointer. */
  lemma ReturnedLeavesAreFound(src: Block, region: Span, end: nat, i: nat)
    requires WalkResources(src).Some? && region.end <= end
    requires var moved := MovedLeaves(LeavesFrom(src, WalkResources(src).value.leaves), end);
      && i < |moved|
      && forall j :: i < j < |moved| ==> moved[i].entry + 4 <= moved[j].entry || moved[j].entry + 4 <= moved[i].entry
    requires ReturnMoved(src, region, end).0 == Restored
    ensures var tree := WalkResources(src).value;
      var moved := MovedLeaves(LeavesFrom(src, tree.leaves), end);
      var r := Return(src.bytes, UsedSpans(src, tree, end), region, moved);
      && |r.places| == |moved| && ReadU32(ReturnMoved(src, region, end).1, moved[i].entry) == Some(r.places[i])
  {
    hide LeavesFrom, MovedLeaves, KeptSpans, WalkTable, Return, Apart, ReadU32;
    var tree := WalkResources(src).value;
    MovedAreApart(src, region, end);
    RecordsPoint(src.bytes, UsedSpans(src, tree, end), region, MovedLeaves(LeavesFrom(src, tree.leaves), end), i);
  }

  // ----- when a leaf keeps its bytes

  /** The pointer in one resource's record stands in another's data, at least in part. */
  predicate Covers(other: Resource, leaf: Resource) {
    other.size > 0 && leaf.entry < other.rva + other.size && other.rva < leaf.entry + 4
  }

  predicate CoversWhole(other: Resource, leaf: Resource) {
    other.rva <= leaf.entry && leaf.entry + 4 <= other.rva + other.size
  }

  predicate SameOrApart(leaf: Resource, other: Resource) {
    leaf.entry == other.entry || leaf.entry + 4 <= other.entry || other.entry + 4 <= leaf.entry
  }

  /** No record in front of resource `i` has its pointer in that resource's data. */
  predicate ClearOfEarlier(moved: seq<Resource>, i: nat)
    requires i < |moved|
  {
    forall j :: 0 <= j < i ==> !Covers(moved[i], moved[j])
  }

  lemma DataStays(bytes: seq<byte>, moved: seq<Resource>, places: seq<nat>, i: nat)
    requires i < |moved| == |places| && moved[i].rva + moved[i].size <= |bytes| && ClearOfEarlier(moved, i)
    ensures DataThen(bytes, moved, places, i) == bytes[moved[i].rva..moved[i].rva + moved[i].size]
  {
    hide Pointed;
    var told := Pointed(bytes, moved[..i], places[..i]);
    forall at | moved[i].rva <= at < moved[i].rva + moved[i].size
      ensures told[at] == bytes[at]
    {
      PointedElsewhere(bytes, moved[..i], places[..i], at);
    }
  }

  /** A record holds the last pointer that was written to it. */
  lemma {:induction false} PointerStands(bytes: seq<byte>, moved: seq<Resource>, places: seq<nat>, j: nat)
    requires j < |moved| == |places| && moved[j].entry + 4 <= |bytes| && places[j] < U32
    requires forall k, at: nat :: j < k < |moved| && InEntry(moved[j], at) ==> !InEntry(moved[k], at)
    ensures U32At(Pointed(bytes, moved, places), moved[j].entry) == places[j]
    decreases |moved|
  {
    hide U32Bytes, U32At, Pointed;
    var pointing := Pointing(bytes, moved[0], places[0]);
    OnePointed(bytes, moved, places);
    if j == 0 {
      assert pointing[moved[0].entry..moved[0].entry + 4] == U32Bytes(places[0]);
      U32RoundTrip(pointing, moved[0].entry, places[0]);
      var all := Pointed(pointing, moved[1..], places[1..]);
      forall at | moved[0].entry <= at < moved[0].entry + 4
        ensures all[at] == pointing[at]
      {
        assert InEntry(moved[0], at);
        PointedElsewhere(pointing, moved[1..], places[1..], at);
      }
      SameU32(all, pointing, moved[0].entry);
    } else {
      PointerStands(pointing, moved[1..], places[1..], j - 1);
    }
  }

  /** A pointer wholly in the data, whose place is not where it led before, changes the data. */
  lemma DataChanges(bytes: seq<byte>, moved: seq<Resource>, places: seq<nat>, i: nat, j: nat)
    requires j < i < |moved| == |places| && moved[i].rva + moved[i].size <= |bytes| && CoversWhole(moved[i], moved[j])
    requires forall k :: j < k < i ==> SameOrApart(moved[j], moved[k]) && !Covers(moved[i], moved[k])
    requires places[j] < U32 && U32At(bytes, moved[j].entry) != places[j]
    ensures DataThen(bytes, moved, places, i) != bytes[moved[i].rva..moved[i].rva + moved[i].size]
  {
    hide Pointed, U32At;
    var leaf, told := moved[i], Pointed(bytes, moved[..i], places[..i]);
    PointerStands(bytes, moved[..i], places[..i], j);
    if told[leaf.rva..leaf.rva + leaf.size] == bytes[leaf.rva..leaf.rva + leaf.size] {
      forall at | moved[j].entry <= at < moved[j].entry + 4
        ensures told[at] == bytes[at]
      {
        assert told[at] == told[leaf.rva..leaf.rva + leaf.size][at - leaf.rva];
        assert bytes[at] == bytes[leaf.rva..leaf.rva + leaf.size][at - leaf.rva];
      }
      SameU32(told, bytes, moved[j].entry);
      assert false;
    }
  }

  lemma LastCovered(moved: seq<Resource>, i: nat) returns (j: nat)
    requires i < |moved| && !ClearOfEarlier(moved, i)
    ensures j < i && Covers(moved[i], moved[j]) && forall k :: j < k < i ==> !Covers(moved[i], moved[k])
  {
    hide Covers;
    j := i - 1;
    while !Covers(moved[i], moved[j])
      invariant j < i && forall k :: j < k < i ==> !Covers(moved[i], moved[k])
      decreases j
    {
      if j == 0 {
        assert false;
      }
      j := j - 1;
    }
  }

  lemma {:induction false} RecordsRead(src: Block, entries: seq<nat>, end: nat)
    ensures forall leaf :: leaf in MovedLeaves(LeavesFrom(src, entries), end) ==>
              leaf.rva >= end && ReadU32(src.bytes, leaf.entry) == Some(leaf.rva)
  {
    hide ReadU32;
    if entries != [] {
      RecordsRead(src, entries[1..], end);
      var rva, size := ReadU32(src.bytes, src.start + entries[0]), ReadU32(src.bytes, src.start + entries[0] + SIZE_OFFSET);
      var leaves, rest := LeavesFrom(src, entries), LeavesFrom(src, entries[1..]);
      if rva.Some? && size.Some? {
        assert leaves[0] == Resource(src.start + entries[0], rva.value, size.value) && leaves[1..] == rest;
      } else {
        assert leaves == rest;
      }
    }
  }

  /** Leaf `i` stands in the result with exactly the bytes it had in the image. */
  ghost predicate KeptItsBytes(src: Block, region: Span, end: nat, i: nat)
    requires WalkResources(src).Some?
  {
    var tree := WalkResources(src).value;
    var moved := MovedLeaves(LeavesFrom(src, tree.leaves), end);
    var r := Return(src.bytes, UsedSpans(src, tree, end), region, moved);
    && i < |moved| == |r.places| && moved[i].rva + moved[i].size <= |src.bytes|
    && StartsAt(ReturnMoved(src, region, end).1, r.places[i], src.bytes[moved[i].rva..moved[i].rva + moved[i].size])
  }

  /** A leaf keeps its bytes if and only if the pointers written before its turn leave its data as it was. */
  lemma KeptIfSameData(src: Block, region: Span, end: nat, i: nat) returns (places: seq<nat>)
    requires WalkResources(src).Some? && region.end <= end && ReturnMoved(src, region, end).0 == Restored
    requires i < |MovedLeaves(LeavesFrom(src, WalkResources(src).value.leaves), end)|
    ensures var moved := MovedLeaves(LeavesFrom(src, WalkResources(src).value.leaves), end);
      && places == Return(src.bytes, UsedSpans(src, WalkResources(src).value, end), region, moved).places
      && |places| == |moved| && moved[i].rva + moved[i].size <= |src.bytes|
      && (forall j :: 0 <= j < |moved| ==> places[j] < end)
      && (KeptItsBytes(src, region, end, i)
          <==> DataThen(src.bytes, moved, places, i) == src.bytes[moved[i].rva..moved[i].rva + moved[i].size])
  {
    hide LeavesFrom, MovedLeaves, KeptSpans, WalkTable, Return, DataThen, Overlaps, OnStep, Free;
    var tree := WalkResources(src).value;
    LeavesReturnSoundly(src, region, end);
    places := Return(src.bytes, UsedSpans(src, tree, end), region, MovedLeaves(LeavesFrom(src, tree.leaves), end)).places;
  }

  /** A leaf keeps its bytes if its data holds no pointer of a record before it, whatever else it covers. */
  lemma ClearLeavesKeepTheirBytes(src: Block, region: Span, end: nat, i: nat)
    requires WalkResources(src).Some? && region.end <= end && ReturnMoved(src, region, end).0 == Restored
    requires var moved := MovedLeaves(LeavesFrom(src, WalkResources(src).value.leaves), end);
      i < |moved| && ClearOfEarlier(moved, i)
    ensures KeptItsBytes(src, region, end, i)
  {
    hide LeavesFrom, MovedLeaves, ReturnMoved, WalkTable, DataThen, ClearOfEarlier, KeptItsBytes;
    var places := KeptIfSameData(src, region, end, i);
    DataStays(src.bytes, MovedLeaves(LeavesFrom(src, WalkResources(src).value.leaves), end), places, i);
  }

  /**
    * And only then, if the records before it are the same or apart, and each has its pointer wholly
    * in the data or wholly outside: the pointer led past the end before, and leads below it after.
    */
  lemma LeafKeepsItsBytesIff(src: Block, region: Span, end: nat, i: nat)
    requires WalkResources(src).Some? && region.end <= end && ReturnMoved(src, region, end).0 == Restored
    requires var moved := MovedLeaves(LeavesFrom(src, WalkResources(src).value.leaves), end);
      && i < |moved|
      && (forall j :: 0 <= j < i ==> Covers(moved[i], moved[j]) ==> CoversWhole(moved[i], moved[j]))
      && (forall j, k :: 0 <= j < k < i ==> SameOrApart(moved[j], moved[k]))
    ensures KeptItsBytes(src, region, end, i)
       <==> ClearOfEarlier(MovedLeaves(LeavesFrom(src, WalkResources(src).value.leaves), end), i)
  {
    hide LeavesFrom, MovedLeaves, ReturnMoved, WalkTable, DataThen, KeptItsBytes, Covers, CoversWhole, SameOrApart;
    var tree := WalkResources(src).value;
    var moved := MovedLeaves(LeavesFrom(src, tree.leaves), end);
    var places := KeptIfSameData(src, region, end, i);
    if ClearOfEarlier(moved, i) {
      DataStays(src.bytes, moved, places, i);
    } else {
      var j := LastCovered(moved, i);
      RecordsRead(src, tree.leaves, end);
      assert moved[j] in moved;
      DataChanges(src.bytes, moved, places, i, j);
    }
  }

  /** Two leaves above their end of 16; the second one's data is the pointer in the first one's record. */
  function CrossedLeaves(): (src: Block)
    ensures |src.bytes| == 80 && src.start == 16
  {
    Block(seq(80, at => CrossedByte(at)), 16)
  }

  /** A root with two entries, and their two records. */
  function CrossedByte(at: int): byte {
    match at
    case 30 => 2
    case 32 => 1
    case 36 => 32
    case 40 => 2
    case 44 => 48
    case 48 => 20
    case 52 => 1
    case 64 => 48
    case 68 => 4
    case _ => 0
  }

  lemma CrossedFields()
    ensures var bytes := CrossedLeaves().bytes;
      && ReadU16(bytes, 28) == Some(0) && ReadU16(bytes, 30) == Some(2)
      && ReadU32(bytes, 32) == Some(1) && ReadU32(bytes, 36) == Some(32) && ReadU32(bytes, 40) == Some(2) && ReadU32(bytes, 44) == Some(48)
      && ReadU32(bytes, 48) == Some(20) && ReadU32(bytes, 52) == Some(1) && ReadU32(bytes, 64) == Some(48) && ReadU32(bytes, 68) == Some(4)
    ensures forall at :: 0 <= at < 28 ==> CrossedLeaves().bytes[at] == 0
  {
  }

  lemma CrossedTree()
    ensures WalkResources(CrossedLeaves()) == Some(Tree(64, [32, 48], MAX_ENTRIES - 2))
  {
    hide CrossedLeaves, ReadU16, ReadU32;
    CrossedFields();
    var src := CrossedLeaves();
    var second := [Entry(2, 48)];
    assert ReadEntries(src.bytes, 48, 0) == Some([]);
    assert second + [] == second;
    assert ReadEntries(src.bytes, 40, 1) == Some(second);
    var entries := [Entry(1, 32)] + second;
    assert ReadEntries(src.bytes, 32, 2) == Some(entries);
    assert Entries(src, 0) == Some(entries);
    assert entries[1..] == second && second[1..] == [];
    var one := WalkEntry(src, entries[0], 0, Tree(32, [], MAX_ENTRIES)).value;
    assert one == Tree(48, [32], MAX_ENTRIES - 1);
    var two := WalkEntry(src, second[0], 0, one).value;
    assert two == Tree(64, [32] + [48], MAX_ENTRIES - 2);
    assert WalkEntries(src, second, 0, one) == Some(two);
    assert WalkEntries(src, entries, 0, Tree(32, [], MAX_ENTRIES)) == Some(two);
    assert TableEnd(src, 0) == 32;
    assert WalkTable(src, 0, 0, Tree(0, [], MAX_ENTRIES)) == Some(two);
    assert [32] + [48] == [32, 48];
  }

  lemma CrossedLists()
    ensures MovedLeaves(LeavesFrom(CrossedLeaves(), [32, 48]), 16) == [Resource(48, 20, 1), Resource(64, 48, 4)]
    ensures KeptSpans(LeavesFrom(CrossedLeaves(), [32, 48]), 16) == []
  {
    hide CrossedLeaves, ReadU16, ReadU32;
    CrossedFields();
    var src := CrossedLeaves();
    var first, second := Resource(48, 20, 1), Resource(64, 48, 4);
    assert [32, 48][1..] == [48] && [48][1..] == [];
    assert LeavesFrom(src, [48]) == [second] && LeavesFrom(src, [32, 48]) == [first, second];
    assert [first, second][1..] == [second] && [second][1..] == [];
    var none: seq<Resource> := [];
    assert MovedLeaves(none, 16) == [] && MovedLeaves([second], 16) == [second];
    assert KeptSpans(none, 16) == [];
    assert KeptSpans([second], 16) == [];
  }

  lemma CrossedReturn()
    ensures ReturnMoved(CrossedLeaves(), Span(0, 16), 16).0 == Restored
  {
    hide WalkResources, LeavesFrom, MovedLeaves, KeptSpans, CrossedLeaves, ReadU16, ReadU32;
    CrossedTree();
    CrossedLists();
    var src, region, used := CrossedLeaves(), Span(0, 16), [Span(16, 80)];
    var first, second := Resource(48, 20, 1), Resource(64, 48, 4);
    assert UsedSpans(src, Tree(64, [32, 48], MAX_ENTRIES - 2), 16) == used;
    var told := CrossedFirst(src, used, region);
    var more := used + [Span(0, 1)];
    CrossedSecond(told, more, region);
    assert [first, second][1..] == [second] && [second][1..] == [];
    assert Return(told, more, region, [second]).restored;
    assert Return(src.bytes, used, region, [first, second]).restored;
  }

  lemma CrossedFirst(src: Block, used: seq<Span>, region: Span) returns (told: seq<byte>)
    requires src == CrossedLeaves() && used == [Span(16, 80)] && region == Span(0, 16)
    ensures Chosen(src.bytes, used, region, Resource(48, 20, 1)) == Some(0) && told == Told(src.bytes, Resource(48, 20, 1), 0)
    ensures |told| == 80 && (forall at :: 0 <= at < 16 ==> told[at] == 0) && told[48..52] == [0, 0, 0, 0]
  {
    CrossedFields();
    hide CrossedLeaves, ReadU16, ReadU32;
    var first := Resource(48, 20, 1);
    assert src.bytes[20..21] == [0];
    assert !Overlaps(used, 0, 1) && Free(src.bytes, 0, [0]);
    assert Search(src.bytes, used, [0], 0, 15, ALIGNMENT) == Some(0);
    told := Told(src.bytes, first, 0);
    assert told[48..52] == U32Bytes(0);
  }

  lemma CrossedSecond(told: seq<byte>, used: seq<Span>, region: Span)
    requires |told| == 80 && (forall at :: 0 <= at < 16 ==> told[at] == 0) && told[48..52] == [0, 0, 0, 0]
    requires used == [Span(16, 80), Span(0, 1)] && region == Span(0, 16)
    ensures Chosen(told, used, region, Resource(64, 48, 4)) == Some(8)
  {
    var data: seq<byte> := [0, 0, 0, 0];
    assert Span(0, 1) in used && Overlaps(used, 0, 4);
    assert !Overlaps(used, 8, 4) && Free(told, 8, data);
    assert Search(told, used, data, 8, 12, ALIGNMENT) == Some(8);
    assert Search(told, used, data, 0, 12, ALIGNMENT) == Some(8);
  }

  /** The first leaf goes to 0, which its record is told; the second one's data was 20 and is now 0. */
  lemma CrossedLeafChanges()
    ensures WalkResources(CrossedLeaves()).Some? && ReturnMoved(CrossedLeaves(), Span(0, 16), 16).0 == Restored
    ensures !KeptItsBytes(CrossedLeaves(), Span(0, 16), 16, 1)
  {
    hide WalkResources, LeavesFrom, MovedLeaves, KeptSpans, ReturnMoved, KeptItsBytes, CrossedLeaves;
    CrossedTree();
    CrossedLists();
    CrossedReturn();
    var moved := [Resource(48, 20, 1), Resource(64, 48, 4)];
    assert Covers(moved[1], moved[0]) && CoversWhole(moved[1], moved[0]);
    LeafKeepsItsBytesIff(CrossedLeaves(), Span(0, 16), 16, 1);
  }

  // ----- step by step

  method FindPlace(buffer: array<byte>, used: seq<Span>, data: seq<byte>, region: Span) returns (r: Option<nat>)
    ensures r == Place(buffer[..], used, data, region)
  {
    var limit := Minus(region.end, |data|);
    r := FindFrom(buffer, used, data, region.start, limit, ALIGNMENT);
    if r.None? {
      r := FindFrom(buffer, used, data, region.start, limit, SMALL_ALIGNMENT);
    }
  }

  method FindFrom(buffer: array<byte>, used: seq<Span>, data: seq<byte>, start: nat, limit: nat, step: nat) returns (r: Option<nat>)
    requires step > 0
    ensures r == Search(buffer[..], used, data, start, limit, step)
  {
    var at := start;
    while at < limit
      invariant Search(buffer[..], used, data, start, limit, step) == Search(buffer[..], used, data, at, limit, step)
    {
      var overlaps := exists u :: u in used && at < u.end && u.start < at + |data|;
      var free := IsFree(buffer, at, data);
      if !overlaps && free {
        return Some(at);
      }
      at := at + step;
    }
    return None;
  }

  method IsFree(buffer: array<byte>, at: nat, data: seq<byte>) returns (free: bool)
    ensures free == Free(buffer[..], at, data)
  {
    if at + |data| > buffer.Length {
      return false;
    }
    for k := 0 to |data|
      invariant forall j :: 0 <= j < k ==> buffer[at + j] == 0 || buffer[at + j] == data[j]
    {
      if buffer[at + k] != 0 && buffer[at + k] != data[k] {
        return false;
      }
    }
    return true;
  }

  method ReturnOne(buffer: array<byte>, used: seq<Span>, region: Span, leaf: Resource) returns (place: Option<nat>)
    modifies buffer
    ensures var bytes := old(buffer[..]);
      match Chosen(bytes, used, region, leaf)
      case None => place.None? && buffer[..] == bytes
      case Some(at) =>
        if at < U32 && leaf.entry + 4 <= |bytes| then place == Some(at) && buffer[..] == Told(bytes, leaf, at)
        else place.None? && buffer[..] == Copied(bytes, leaf, at)
  {
    hide Place, Put, U32Bytes;
    if leaf.rva + leaf.size > buffer.Length {
      return None;
    }
    var data := buffer[leaf.rva..leaf.rva + leaf.size];
    assert data == buffer[..][leaf.rva..leaf.rva + leaf.size];
    place := FindPlace(buffer, used, data, region);
    if place.None? {
      return None;
    }
    CopyInto(buffer, place.value, data);
    if place.value >= U32 || leaf.entry + 4 > buffer.Length {
      return None;
    }
    CopyInto(buffer, leaf.entry, U32Bytes(place.value));
  }

  method ReturnMovedLeaves(buffer: array<byte>, start: nat, region: Span, end: nat) returns (r: Restoration)
    modifies buffer
    ensures (r, buffer[..]) == ReturnMoved(Block(old(buffer[..]), start), region, end)
  {
    hide Chosen, Copied, Told, WalkTable, LeavesFrom, MovedLeaves, KeptSpans;
    var src := Block(buffer[..], start);
    var tree := WalkResources(src);
    if tree.None? {
      return Failed;
    }
    var moved := MovedLeaves(LeavesFrom(src, tree.value.leaves), end);
    if moved == [] {
      return Absent;
    }
    var used := UsedSpans(src, tree.value, end);
    ghost var whole := Return(src.bytes, used, region, moved);
    for i := 0 to |moved|
      invariant whole.bytes == Return(buffer[..], used, region, moved[i..]).bytes
      invariant whole.restored == Return(buffer[..], used, region, moved[i..]).restored
    {
      var leaf := moved[i];
      assert moved[i..][0] == leaf && moved[i..][1..] == moved[i + 1..];
      var place := ReturnOne(buffer, used, region, leaf);
      if place.None? {
        return Failed;
      }
      used := used + [Span(place.value, place.value + leaf.size)];
    }
    return Restored;
  }
}
