/**
  * The plan of imports recovered from memory: runs of resolved pointers become groups, and slots that
  * code refers to are added afterwards. What an address resolves to is given.
  */
module ImportPlan {
  import opened Wrappers
  import opened Bytes
  import opened Texts

  const MAX_IMPORTS := 65536
  const MAX_GROUPS := 4096
  const DESCRIPTOR_SIZE := 20
  const FIRST_THUNK_OFFSET := 16

  datatype Source = Attested | Scanned | Delayed | Inferred | Packer

  datatype Symbol = Symbol(moduleName: Text, name: Option<Text>, ordinal: nat)

  datatype Resolution = Resolved(symbol: Symbol, ambiguous: bool, aliased: bool) | Unresolved

  datatype Reference = Called | Loaded

  datatype Call = Call(slot: nat, reference: Reference)

  datatype Entry = Entry(name: Option<Text>, ordinal: nat, aliased: bool)

  datatype Group = Group(moduleName: Text, firstThunk: nat, entries: seq<Entry>, source: Source)

  /** A slot whose pointer was resolved. */
  datatype Candidate = Candidate(slot: nat, symbol: Symbol, aliased: bool)

  /** The captured image, what its addresses resolve to, and the slots its code refers to, in order. */
  datatype World = World(
    memory: seq<byte>, wide: bool, resolve: nat -> Resolution, inData: nat -> bool, guards: set<nat>, calls: seq<Call>,
    own: Option<Text>)

  /** What scanning has come to; every counter of recovered imports follows from the groups. */
  datatype Plan = Plan(groups: seq<Group>, ambiguous: set<nat>, unrepresentable: nat, mixedRuns: nat)

  datatype Scan = Scan(start: nat, end: nat, minimum: nat, source: Source)

  // ----- slots

  function Width(wide: bool): nat {
    if wide then 8 else 4
  }

  /** `count` pointers take this many bytes. */
  function Span(wide: bool, count: nat): nat {
    if wide then 8 * count else 4 * count
  }

  function ReadPointer(memory: seq<byte>, at: nat, wide: bool): Option<nat> {
    var low :- ReadU32(memory, at);
    if !wide then Some(low)
    else
      var high :- ReadU32(memory, at + 4);
      Some(high * U32 + low)
  }

  ghost predicate Owns(group: Group, wide: bool, slot: nat) {
    exists i: nat :: i < |group.entries| && slot == group.firstThunk + Span(wide, i)
  }

  ghost predicate Owned(groups: seq<Group>, wide: bool, slot: nat) {
    exists g :: g in groups && Owns(g, wide, slot)
  }

  // ----- totals

  function Total(groups: seq<Group>): nat {
    if groups == [] then 0 else Total(groups[..|groups| - 1]) + |groups[|groups| - 1].entries|
  }

  function TierTotal(groups: seq<Group>, source: Source): nat {
    if groups == [] then 0
    else
      TierTotal(groups[..|groups| - 1], source)
      + (if groups[|groups| - 1].source == source then |groups[|groups| - 1].entries| else 0)
  }

  function AliasedEntries(entries: seq<Entry>): nat {
    if entries == [] then 0 else (if entries[0].aliased then 1 else 0) + AliasedEntries(entries[1..])
  }

  function AliasedTotal(groups: seq<Group>): nat {
    if groups == [] then 0 else AliasedTotal(groups[..|groups| - 1]) + AliasedEntries(groups[|groups| - 1].entries)
  }

  predicate IsCalled(calls: seq<Call>, slot: nat) {
    exists c :: c in calls && c.slot == slot
  }

  /** How many of a group's first `count` slots code refers to. */
  function CalledSlots(world: World, group: Group, count: nat): nat {
    if count == 0 then 0
    else
      var slot := group.firstThunk + Span(world.wide, count - 1);
      CalledSlots(world, group, count - 1) + (if slot < U32 && IsCalled(world.calls, slot) then 1 else 0)
  }

  predicate CarriesEvidence(source: Source) {
    source == Attested || source == Scanned || source == Packer
  }

  function CallSites(world: World, groups: seq<Group>): nat {
    if groups == [] then 0
    else
      var last := groups[|groups| - 1];
      CallSites(world, groups[..|groups| - 1]) + (if CarriesEvidence(last.source) then CalledSlots(world, last, |last.entries|) else 0)
  }

  /** The five tiers make up the whole. */
  lemma {:induction false} TiersAddUp(groups: seq<Group>)
    ensures TierTotal(groups, Attested) + TierTotal(groups, Scanned) + TierTotal(groups, Delayed) + TierTotal(groups, Inferred)
            + TierTotal(groups, Packer) == Total(groups)
  {
    if groups != [] {
      TiersAddUp(groups[..|groups| - 1]);
    }
  }

  // ----- groups

  function Lower(letter: byte): byte {
    if 65 <= letter <= 90 then (letter as int) + 32 else letter
  }

  predicate SameLetters(a: Text, b: Text) {
    |a| == |b| && forall i :: 0 <= i < |a| ==> Lower(a[i]) == Lower(b[i])
  }

  predicate AllAscii(text: Text) {
    forall i :: 0 <= i < |text| ==> text[i] < 128
  }

  /** Ordinal thunks hold sixteen bits. */
  predicate Representable(symbol: Symbol) {
    AllAscii(symbol.moduleName) && match symbol.name case Some(name) => AllAscii(name) case None => symbol.ordinal < 0x1_0000
  }

  predicate IsOwn(world: World, symbol: Symbol) {
    world.own.Some? && SameLetters(world.own.value, symbol.moduleName)
  }

  predicate Accepts(groups: seq<Group>, group: Group, minimum: nat) {
    |group.entries| >= minimum && Total(groups) + |group.entries| <= MAX_IMPORTS && |groups| < MAX_GROUPS
  }

  function Pushed(plan: Plan, group: Group, minimum: nat): Plan {
    if Accepts(plan.groups, group, minimum) then plan.(groups := plan.groups + [group]) else plan
  }

  function EntryOf(c: Candidate): Entry {
    Entry(c.symbol.name, c.symbol.ordinal, c.aliased)
  }

  /** The candidate belongs right behind the group's entries. */
  predicate GoesOn(world: World, group: Group, c: Candidate) {
    SameLetters(group.moduleName, c.symbol.moduleName) && group.firstThunk + Span(world.wide, |group.entries|) == c.slot
  }

  function Append(world: World, plan: Plan, current: Option<Group>, candidates: seq<Candidate>, minimum: nat, source: Source): Plan
    decreases |candidates|
  {
    if candidates == [] then (if current.Some? then Pushed(plan, current.value, minimum) else plan)
    else
      var c, rest := candidates[0], candidates[1..];
      if IsOwn(world, c.symbol) then Append(world, plan, current, rest, minimum, source)
      else if !Representable(c.symbol) then
        Append(world, plan.(unrepresentable := plan.unrepresentable + 1), current, rest, minimum, source)
      else if current.Some? && GoesOn(world, current.value, c) then
        Append(world, plan, Some(current.value.(entries := current.value.entries + [EntryOf(c)])), rest, minimum, source)
      else
        var pushed := if current.Some? then Pushed(plan, current.value, minimum) else plan;
        Append(world, pushed, Some(Group(c.symbol.moduleName, c.slot, [EntryOf(c)], source)), rest, minimum, source)
  }

  // ----- scanning

  datatype RunOf = RunOf(candidates: seq<Candidate>, offset: nat, ambiguous: Option<nat>)

  function Run(world: World, offset: nat, end: nat, taken: seq<Candidate>): RunOf
    decreases if offset < end then end - offset else 0
  {
    if offset + Width(world.wide) > end || |taken| >= MAX_IMPORTS || offset >= U32 then RunOf(taken, offset, None)
    else
      match ReadPointer(world.memory, offset, world.wide)
      case None => RunOf(taken, offset, None)
      case Some(value) =>
        match world.resolve(value)
        case Unresolved => RunOf(taken, offset, None)
        case Resolved(symbol, ambiguous, aliased) =>
          if ambiguous then RunOf(taken, offset, Some(offset))
          else Run(world, offset + Width(world.wide), end, taken + [Candidate(offset, symbol, aliased)])
  }

  predicate Mixed(candidates: seq<Candidate>) {
    exists c, d :: c in candidates && d in candidates && !SameLetters(c.symbol.moduleName, d.symbol.moduleName)
  }

  /** A run counts if nothing is left over on either side of it. */
  predicate Clean(world: World, aligned: nat, from: nat, to: nat, end: nat) {
    && (from == aligned || (from >= Width(world.wide) && ReadPointer(world.memory, from - Width(world.wide), world.wide) == Some(0)))
    && (ReadPointer(world.memory, to, world.wide) == Some(0) || to == end)
  }

  function Noted(plan: Plan, slot: Option<nat>): Plan {
    if slot.Some? then plan.(ambiguous := plan.ambiguous + {slot.value}) else plan
  }

  function ScanOne(world: World, scan: Scan, aligned: nat, offset: nat, plan: Plan): Plan {
    var run := Run(world, offset, scan.end, []);
    var noted := Noted(plan, run.ambiguous);
    if |run.candidates| >= scan.minimum && Clean(world, aligned, offset, run.offset, scan.end) then
      var counted := if Mixed(run.candidates) then noted.(mixedRuns := noted.mixedRuns + 1) else noted;
      Append(world, counted, None, run.candidates, scan.minimum, scan.source)
    else noted
  }

  lemma {:induction false} RunGoesOn(world: World, offset: nat, end: nat, taken: seq<Candidate>)
    ensures Run(world, offset, end, taken).offset >= offset
    decreases if offset < end then end - offset else 0
  {
    hide ReadPointer;
    if offset + Width(world.wide) <= end && |taken| < MAX_IMPORTS && offset < U32 && ReadPointer(world.memory, offset, world.wide).Some? {
      var found := world.resolve(ReadPointer(world.memory, offset, world.wide).value);
      if found.Resolved? && !found.ambiguous {
        RunGoesOn(world, offset + Width(world.wide), end, taken + [Candidate(offset, found.symbol, found.aliased)]);
      }
    }
  }

  function Next(world: World, offset: nat, end: nat): (r: nat)
    ensures r > offset
  {
    var reached := Run(world, offset, end, []).offset;
    RunGoesOn(world, offset, end, []);
    if reached == offset then offset + Width(world.wide) else reached
  }

  function ScanFrom(world: World, scan: Scan, aligned: nat, offset: nat, plan: Plan): Plan
    decreases if offset < scan.end then scan.end - offset else 0
  {
    if offset + Width(world.wide) > scan.end || Total(plan.groups) >= MAX_IMPORTS then plan
    else ScanFrom(world, scan, aligned, Next(world, offset, scan.end), ScanOne(world, scan, aligned, offset, plan))
  }

  function Aligned(start: nat, wide: bool): nat {
    start + (if wide then (8 - start % 8) % 8 else (4 - start % 4) % 4)
  }

  function ScanRange(world: World, scan: Scan, plan: Plan): Plan {
    var aligned := Aligned(scan.start, world.wide);
    ScanFrom(world, scan, aligned, aligned, plan)
  }

  // ----- slots that code refers to

  /** A kept descriptor's slots, up to its empty one. */
  function ThunkSlots(memory: seq<byte>, firstThunk: nat, index: nat, wide: bool): set<nat>
    decreases MAX_IMPORTS - index
  {
    var slot := firstThunk + Span(wide, index);
    if index >= MAX_IMPORTS || slot >= U32 then {}
    else
      var thunk := ReadPointer(memory, slot, wide);
      if thunk.None? || thunk.value == 0 then {} else {slot} + ThunkSlots(memory, firstThunk, index + 1, wide)
  }

  function KeptSlots(memory: seq<byte>, existing: seq<byte>, wide: bool): set<nat> {
    if |existing| < DESCRIPTOR_SIZE then {}
    else
      ThunkSlots(memory, U32At(existing, FIRST_THUNK_OFFSET), 0, wide) + KeptSlots(memory, existing[DESCRIPTOR_SIZE..], wide)
  }

  function GroupSlots(group: Group, wide: bool, count: nat): set<nat> {
    if count == 0 then {}
    else
      var slot := group.firstThunk + Span(wide, count - 1);
      GroupSlots(group, wide, count - 1) + (if slot < U32 then {slot} else {})
  }

  function RecoveredSlots(groups: seq<Group>, wide: bool): set<nat> {
    if groups == [] then {}
    else
      var last := groups[|groups| - 1];
      RecoveredSlots(groups[..|groups| - 1], wide) + GroupSlots(last, wide, |last.entries|)
  }

  /** One of the slots beside this one leads to the same module. */
  predicate NeighborShares(world: World, slot: nat, moduleName: Text) {
    || (slot >= Width(world.wide) && LeadsTo(world, slot - Width(world.wide), moduleName))
    || (slot + Width(world.wide) < U32 && LeadsTo(world, slot + Width(world.wide), moduleName))
  }

  predicate LeadsTo(world: World, slot: nat, moduleName: Text) {
    var value := ReadPointer(world.memory, slot, world.wide);
    value.Some? && world.resolve(value.value).Resolved? && SameLetters(world.resolve(value.value).symbol.moduleName, moduleName)
  }

  datatype Finding = Skip | Ambiguous | Found(candidate: Candidate)

  function Look(world: World, call: Call, taken: set<nat>): Finding {
    if call.slot in taken || !world.inData(call.slot) then Skip
    else
      match ReadPointer(world.memory, call.slot, world.wide)
      case None => Skip
      case Some(value) =>
        match world.resolve(value)
        case Unresolved => Skip
        case Resolved(symbol, ambiguous, aliased) =>
          if ambiguous then Ambiguous
          else if call.reference == Loaded && !NeighborShares(world, call.slot, symbol.moduleName) then Skip
          else Found(Candidate(call.slot, symbol, aliased))
  }

  datatype Gathered = Gathered(candidates: seq<Candidate>, ambiguous: set<nat>)

  function Gather(world: World, calls: seq<Call>, taken: set<nat>, limit: nat, so: Gathered): Gathered
    decreases |calls|
  {
    if calls == [] then so
    else if |so.candidates| >= limit then Gather(world, calls[1..], taken, limit, so)
    else
      var next := match Look(world, calls[0], taken)
        case Skip => so
        case Ambiguous => so.(ambiguous := so.ambiguous + {calls[0].slot})
        case Found(c) => so.(candidates := so.candidates + [c]);
      Gather(world, calls[1..], taken, limit, next)
  }

  function TakenSlots(world: World, plan: Plan, existing: seq<byte>, unbound: set<nat>): set<nat> {
    RecoveredSlots(plan.groups, world.wide) + KeptSlots(world.memory, existing, world.wide) + world.guards + unbound
  }

  function Recover(world: World, plan: Plan, existing: seq<byte>, unbound: set<nat>): Plan {
    if Total(plan.groups) >= MAX_IMPORTS || |plan.groups| >= MAX_GROUPS then plan
    else
      var taken := TakenSlots(world, plan, existing, unbound);
      var found := Gather(world, world.calls, taken, MAX_IMPORTS - Total(plan.groups), Gathered([], plan.ambiguous));
      Append(world, plan.(ambiguous := found.ambiguous), None, found.candidates, 1, Inferred)
  }

  // ----- what every group keeps

  /** An entry is what its slot's pointer resolves to. */
  ghost predicate Rests(world: World, group: Group, i: nat)
    requires i < |group.entries|
  {
    var slot := group.firstThunk + Span(world.wide, i);
    var value := ReadPointer(world.memory, slot, world.wide);
    && slot < U32 && value.Some?
    && var r := world.resolve(value.value);
    && r.Resolved? && !r.ambiguous && group.entries[i] == Entry(r.symbol.name, r.symbol.ordinal, r.aliased)
    && SameLetters(group.moduleName, r.symbol.moduleName) && Representable(r.symbol) && !IsOwn(world, r.symbol)
  }

  ghost predicate Sound(world: World, group: Group) {
    group.entries != [] && forall i :: 0 <= i < |group.entries| ==> Rests(world, group, i)
  }

  ghost predicate AllSound(world: World, groups: seq<Group>) {
    forall g :: g in groups ==> Sound(world, g)
  }

  predicate Bounded(groups: seq<Group>) {
    Total(groups) <= MAX_IMPORTS && |groups| <= MAX_GROUPS
  }

  ghost predicate SoundCandidate(world: World, c: Candidate) {
    c.slot < U32 && ReadPointer(world.memory, c.slot, world.wide).Some?
    && world.resolve(ReadPointer(world.memory, c.slot, world.wide).value) == Resolved(c.symbol, false, c.aliased)
  }

  ghost predicate AllSoundCandidates(world: World, candidates: seq<Candidate>) {
    forall c :: c in candidates ==> SoundCandidate(world, c)
  }

  lemma PushKeeps(world: World, plan: Plan, group: Group, minimum: nat)
    requires Bounded(plan.groups) && AllSound(world, plan.groups) && Sound(world, group)
    ensures Bounded(Pushed(plan, group, minimum).groups) && AllSound(world, Pushed(plan, group, minimum).groups)
    ensures plan.groups <= Pushed(plan, group, minimum).groups
  {
    hide Sound;
    assert (plan.groups + [group])[..|plan.groups|] == plan.groups;
  }

  lemma FirstOfGroup(world: World, c: Candidate, source: Source)
    requires SoundCandidate(world, c) && !IsOwn(world, c.symbol) && Representable(c.symbol)
    ensures Sound(world, Group(c.symbol.moduleName, c.slot, [EntryOf(c)], source))
  {
  }

  lemma NextOfGroup(world: World, group: Group, c: Candidate)
    requires Sound(world, group) && SoundCandidate(world, c) && !IsOwn(world, c.symbol) && Representable(c.symbol)
    requires GoesOn(world, group, c)
    ensures Sound(world, group.(entries := group.entries + [EntryOf(c)]))
  {
    hide ReadPointer, Representable, IsOwn;
    var more := group.(entries := group.entries + [EntryOf(c)]);
    forall i | 0 <= i < |more.entries|
      ensures Rests(world, more, i)
    {
      if i < |group.entries| {
        assert Rests(world, group, i);
      }
    }
  }

  /** Grouping keeps the bounds, and every entry at its place. */
  lemma {:induction false} AppendKeeps(
      world: World, plan: Plan, current: Option<Group>, candidates: seq<Candidate>, minimum: nat, source: Source)
    requires Bounded(plan.groups) && AllSound(world, plan.groups) && AllSoundCandidates(world, candidates)
    requires current.Some? ==> Sound(world, current.value)
    ensures var groups := Append(world, plan, current, candidates, minimum, source).groups;
      Bounded(groups) && AllSound(world, groups) && plan.groups <= groups
    decreases |candidates|
  {
    hide Bounded, AllSound, Sound, SoundCandidate, Pushed, Representable, IsOwn, GoesOn;
    if current.Some? {
      PushKeeps(world, plan, current.value, minimum);
    }
    if candidates != [] {
      var c, rest := candidates[0], candidates[1..];
      assert c in candidates && forall x :: x in rest ==> x in candidates;
      if IsOwn(world, c.symbol) {
        AppendKeeps(world, plan, current, rest, minimum, source);
      } else if !Representable(c.symbol) {
        AppendKeeps(world, plan.(unrepresentable := plan.unrepresentable + 1), current, rest, minimum, source);
      } else if current.Some? && GoesOn(world, current.value, c) {
        NextOfGroup(world, current.value, c);
        AppendKeeps(world, plan, Some(current.value.(entries := current.value.entries + [EntryOf(c)])), rest, minimum, source);
      } else {
        FirstOfGroup(world, c, source);
        var pushed := if current.Some? then Pushed(plan, current.value, minimum) else plan;
        var next := Group(c.symbol.moduleName, c.slot, [EntryOf(c)], source);
        AppendKeeps(world, pushed, Some(next), rest, minimum, source);
      }
    }
  }

  lemma {:induction false} RunIsSound(world: World, offset: nat, end: nat, taken: seq<Candidate>)
    requires AllSoundCandidates(world, taken)
    ensures AllSoundCandidates(world, Run(world, offset, end, taken).candidates)
    decreases if offset < end then end - offset else 0
  {
    hide ReadPointer;
    if offset + Width(world.wide) <= end && |taken| < MAX_IMPORTS && offset < U32 && ReadPointer(world.memory, offset, world.wide).Some? {
      var found := world.resolve(ReadPointer(world.memory, offset, world.wide).value);
      if found.Resolved? && !found.ambiguous {
        RunIsSound(world, offset + Width(world.wide), end, taken + [Candidate(offset, found.symbol, found.aliased)]);
      }
    }
  }

  lemma ScanOneKeeps(world: World, scan: Scan, aligned: nat, offset: nat, plan: Plan)
    requires Bounded(plan.groups) && AllSound(world, plan.groups)
    ensures var groups := ScanOne(world, scan, aligned, offset, plan).groups; Bounded(groups) && AllSound(world, groups)
  {
    hide Bounded, AllSound, Run, Clean, Mixed, Append;
    var run := Run(world, offset, scan.end, []);
    var noted := Noted(plan, run.ambiguous);
    var counted := if Mixed(run.candidates) then noted.(mixedRuns := noted.mixedRuns + 1) else noted;
    RunIsSound(world, offset, scan.end, []);
    AppendKeeps(world, counted, None, run.candidates, scan.minimum, scan.source);
  }

  lemma {:induction false} ScanKeeps(world: World, scan: Scan, aligned: nat, offset: nat, plan: Plan)
    requires Bounded(plan.groups) && AllSound(world, plan.groups)
    ensures var groups := ScanFrom(world, scan, aligned, offset, plan).groups; Bounded(groups) && AllSound(world, groups)
    decreases if offset < scan.end then scan.end - offset else 0
  {
    hide Bounded, AllSound, ScanOne, Next;
    if offset + Width(world.wide) <= scan.end && Total(plan.groups) < MAX_IMPORTS {
      ScanOneKeeps(world, scan, aligned, offset, plan);
      NextIsLater(world, offset, scan.end);
      ScanKeeps(world, scan, aligned, Next(world, offset, scan.end), ScanOne(world, scan, aligned, offset, plan));
    }
  }

  lemma NextIsLater(world: World, offset: nat, end: nat)
    ensures Next(world, offset, end) > offset
  {
  }

  // ----- recovered slots are new

  ghost predicate Ascending(calls: seq<Call>) {
    forall i, j :: 0 <= i < j < |calls| ==> calls[i].slot < calls[j].slot
  }

  ghost predicate InOrder(candidates: seq<Candidate>) {
    forall i, j :: 0 <= i < j < |candidates| ==> candidates[i].slot < candidates[j].slot
  }

  /** What was gathered is sound, in order, free, and referred to by code. */
  lemma {:induction false} GatherFinds(world: World, calls: seq<Call>, taken: set<nat>, limit: nat, so: Gathered, all: seq<Call>)
    requires Ascending(calls) && (forall c :: c in calls ==> c in all) && (forall c :: c in all ==> c.slot < U32)
    requires AllSoundCandidates(world, so.candidates) && InOrder(so.candidates)
    requires forall c, d :: c in so.candidates && d in calls ==> c.slot < d.slot
    requires forall c :: c in so.candidates ==> c.slot !in taken && IsCalled(all, c.slot)
    ensures var found := Gather(world, calls, taken, limit, so).candidates;
      && AllSoundCandidates(world, found) && InOrder(found)
      && forall c :: c in found ==> c.slot !in taken && IsCalled(all, c.slot)
    decreases |calls|
  {
    hide ReadPointer, NeighborShares;
    if calls != [] {
      var call, rest := calls[0], calls[1..];
      assert call in calls && call in all && forall c :: c in rest ==> c in calls;
      assert forall c :: c in rest ==> call.slot < c.slot;
      if |so.candidates| >= limit {
        GatherFinds(world, rest, taken, limit, so, all);
      } else {
        var next := match Look(world, call, taken)
          case Skip => so
          case Ambiguous => so.(ambiguous := so.ambiguous + {call.slot})
          case Found(c) => so.(candidates := so.candidates + [c]);
        GatherFinds(world, rest, taken, limit, next, all);
      }
    }
  }

  ghost predicate Below(groups: seq<Group>, wide: bool, bound: nat) {
    forall g, slot: nat :: g in groups && Owns(g, wide, slot) ==> slot < bound
  }

  ghost predicate Apart(groups: seq<Group>, wide: bool) {
    forall i, j, slot: nat :: 0 <= i < j < |groups| ==> !(Owns(groups[i], wide, slot) && Owns(groups[j], wide, slot))
  }

  /** A group's slots were candidates'. */
  ghost predicate From(group: Group, wide: bool, candidates: seq<Candidate>) {
    forall slot: nat :: Owns(group, wide, slot) ==> exists c :: c in candidates && c.slot == slot
  }

  lemma OwnsOne(moduleName: Text, slot: nat, entry: Entry, source: Source, wide: bool)
    ensures forall s: nat :: Owns(Group(moduleName, slot, [entry], source), wide, s) <==> s == slot
  {
    var group := Group(moduleName, slot, [entry], source);
    assert group.firstThunk + Span(wide, 0) == slot;
    assert 0 < |group.entries|;
  }

  lemma OwnsOneMore(group: Group, entry: Entry, wide: bool)
    ensures var more := group.(entries := group.entries + [entry]);
      forall s: nat :: Owns(more, wide, s) <==> Owns(group, wide, s) || s == group.firstThunk + Span(wide, |group.entries|)
  {
    var more, last := group.(entries := group.entries + [entry]), |group.entries|;
    assert |more.entries| == last + 1;
    forall s: nat
      ensures Owns(more, wide, s) <==> Owns(group, wide, s) || s == group.firstThunk + Span(wide, last)
    {
      if s == group.firstThunk + Span(wide, last) {
        assert last < |more.entries| && s == more.firstThunk + Span(wide, last);
      }
      if Owns(group, wide, s) {
        var i: nat :| i < |group.entries| && s == group.firstThunk + Span(wide, i);
        assert i < |more.entries| && s == more.firstThunk + Span(wide, i);
      }
    }
  }

  function With(groups: seq<Group>, current: Option<Group>): seq<Group> {
    if current.Some? then groups + [current.value] else groups
  }

  /** Groups that are apart, all made of candidates, and below what is still to come. */
  ghost predicate Settled(groups: seq<Group>, wide: bool, all: seq<Candidate>, rest: seq<Candidate>) {
    && Apart(groups, wide) && (forall g :: g in groups ==> From(g, wide, all))
    && forall c :: c in rest ==> Below(groups, wide, c.slot)
  }

  lemma SettledWithoutLast(groups: seq<Group>, group: Group, wide: bool, all: seq<Candidate>, rest: seq<Candidate>)
    requires Settled(groups + [group], wide, all, rest)
    ensures Settled(groups, wide, all, rest)
  {
    hide Owns;
    var more := groups + [group];
    assert forall i :: 0 <= i < |groups| ==> groups[i] == more[i];
    assert forall g :: g in groups ==> g in more;
  }

  lemma SettledRest(groups: seq<Group>, wide: bool, all: seq<Candidate>, rest: seq<Candidate>)
    requires Settled(groups, wide, all, rest) && rest != []
    ensures Settled(groups, wide, all, rest[1..])
  {
    hide Owns, Below, Apart, From;
    assert forall c :: c in rest[1..] ==> c in rest;
  }

  lemma SettledNew(groups: seq<Group>, group: Group, wide: bool, all: seq<Candidate>, rest: seq<Candidate>)
    requires Settled(groups, wide, all, rest) && rest != [] && InOrder(rest) && rest[0] in all
    requires forall s: nat :: Owns(group, wide, s) <==> s == rest[0].slot
    ensures Settled(groups + [group], wide, all, rest[1..])
  {
    hide Owns;
    var more := groups + [group];
    assert rest[0] in rest && Below(groups, wide, rest[0].slot);
    forall i, j, s: nat | 0 <= i < j < |more|
      ensures !(Owns(more[i], wide, s) && Owns(more[j], wide, s))
    {
      assert more[i] == groups[i] && more[i] in groups;
      if j < |groups| {
        assert more[j] == groups[j];
      }
    }
    forall c | c in rest[1..]
      ensures Below(more, wide, c.slot)
    {
      assert c in rest && Below(groups, wide, c.slot);
    }
  }

  lemma SettledMore(groups: seq<Group>, group: Group, more: Group, wide: bool, all: seq<Candidate>, rest: seq<Candidate>)
    requires Settled(groups + [group], wide, all, rest) && rest != [] && InOrder(rest) && rest[0] in all
    requires forall s: nat :: Owns(more, wide, s) <==> Owns(group, wide, s) || s == rest[0].slot
    ensures Settled(groups + [more], wide, all, rest[1..])
  {
    hide Owns;
    var before, after := groups + [group], groups + [more];
    assert rest[0] in rest && Below(before, wide, rest[0].slot) && group in before;
    assert forall g :: g in groups ==> g in before;
    forall i, j, s: nat | 0 <= i < j < |after|
      ensures !(Owns(after[i], wide, s) && Owns(after[j], wide, s))
    {
      assert after[i] == before[i] && before[i] in before;
      if j < |groups| {
        assert after[j] == before[j];
      } else {
        assert before[j] == group;
      }
    }
    forall c | c in rest[1..]
      ensures Below(after, wide, c.slot)
    {
      assert c in rest && Below(before, wide, c.slot);
    }
    assert From(group, wide, all);
  }

  /** Candidates in order make groups that share no slot, and own no slot that was not a candidate's. */
  lemma {:induction false} AppendApart(
      world: World, plan: Plan, before: seq<Group>, found: seq<Group>, current: Option<Group>, all: seq<Candidate>,
      candidates: seq<Candidate>, minimum: nat, source: Source)
    requires plan.groups == before + found && InOrder(candidates) && forall c :: c in candidates ==> c in all
    requires Settled(With(found, current), world.wide, all, candidates)
    ensures var groups := Append(world, plan, current, candidates, minimum, source).groups;
      && before <= groups && Apart(groups[|before|..], world.wide)
      && forall g :: g in groups[|before|..] ==> From(g, world.wide, all)
    decreases |candidates|
  {
    hide Settled, Apart, From, Representable, IsOwn, GoesOn, Accepts, Owns, InOrder;
    var pushed := if current.Some? then Pushed(plan, current.value, minimum) else plan;
    var grown := if current.Some? && Accepts(plan.groups, current.value, minimum) then found + [current.value] else found;
    assert pushed.groups == before + grown;
    PushSettles(found, current, grown, world.wide, all, candidates);
    if candidates == [] {
      SettledIsApart(grown, world.wide, all, candidates);
      assert (before + grown)[|before|..] == grown;
    } else {
      var c, rest := candidates[0], candidates[1..];
      assert c in candidates && forall x :: x in rest ==> x in candidates;
      OrderOfRest(candidates);
      SettledRest(With(found, current), world.wide, all, candidates);
      if IsOwn(world, c.symbol) {
        AppendApart(world, plan, before, found, current, all, rest, minimum, source);
      } else if !Representable(c.symbol) {
        AppendApart(world, plan.(unrepresentable := plan.unrepresentable + 1), before, found, current, all, rest, minimum, source);
      } else if current.Some? && GoesOn(world, current.value, c) {
        var more := current.value.(entries := current.value.entries + [EntryOf(c)]);
        OwnsOneMore(current.value, EntryOf(c), world.wide);
        NextSlot(world, current.value, c);
        SettledMore(found, current.value, more, world.wide, all, candidates);
        AppendApart(world, plan, before, found, Some(more), all, rest, minimum, source);
      } else {
        var next := Group(c.symbol.moduleName, c.slot, [EntryOf(c)], source);
        OwnsOne(c.symbol.moduleName, c.slot, EntryOf(c), source, world.wide);
        SettledNew(grown, next, world.wide, all, candidates);
        AppendApart(world, pushed, before, grown, Some(next), all, rest, minimum, source);
      }
    }
  }

  lemma NextSlot(world: World, group: Group, c: Candidate)
    requires GoesOn(world, group, c)
    ensures group.firstThunk + Span(world.wide, |group.entries|) == c.slot
  {
  }

  lemma OrderOfRest(candidates: seq<Candidate>)
    requires InOrder(candidates) && candidates != []
    ensures InOrder(candidates[1..])
  {
  }

  lemma SettledIsApart(groups: seq<Group>, wide: bool, all: seq<Candidate>, rest: seq<Candidate>)
    requires Settled(groups, wide, all, rest)
    ensures Apart(groups, wide) && forall g :: g in groups ==> From(g, wide, all)
  {
    hide Apart, From;
  }

  lemma PushSettles(
      groups: seq<Group>, current: Option<Group>, grown: seq<Group>, wide: bool, all: seq<Candidate>, rest: seq<Candidate>)
    requires Settled(With(groups, current), wide, all, rest)
    requires grown == groups || (current.Some? && grown == groups + [current.value])
    ensures Settled(grown, wide, all, rest)
  {
    hide Settled;
    if current.Some? && grown == groups {
      SettledWithoutLast(groups, current.value, wide, all, rest);
    }
  }

  lemma {:induction false} OwnedAreRecovered(groups: seq<Group>, wide: bool, slot: nat)
    requires Owned(groups, wide, slot) && slot < U32
    ensures slot in RecoveredSlots(groups, wide)
  {
    var g :| g in groups && Owns(g, wide, slot);
    var i: nat :| i < |g.entries| && slot == g.firstThunk + Span(wide, i);
    var last := groups[|groups| - 1];
    if g == last {
      SlotIsListed(g, wide, |g.entries|, i);
    } else {
      assert g in groups[..|groups| - 1];
      OwnedAreRecovered(groups[..|groups| - 1], wide, slot);
    }
  }

  lemma {:induction false} SlotIsListed(group: Group, wide: bool, count: nat, i: nat)
    requires i < count && group.firstThunk + Span(wide, i) < U32
    ensures group.firstThunk + Span(wide, i) in GroupSlots(group, wide, count)
  {
    if i < count - 1 {
      SlotIsListed(group, wide, count - 1, i);
    }
  }

  /** Recovery by references adds groups of new slots only: no group, kept descriptor or guard has them, and code refers to each. */
  lemma RecoverAddsNewSlots(world: World, plan: Plan, existing: seq<byte>, unbound: set<nat>)
    requires Ascending(world.calls) && forall c :: c in world.calls ==> c.slot < U32
    ensures var groups := Recover(world, plan, existing, unbound).groups;
      && plan.groups <= groups && Apart(groups[|plan.groups|..], world.wide)
      && forall g, slot: nat :: g in groups[|plan.groups|..] && Owns(g, world.wide, slot) ==>
           && !Owned(plan.groups, world.wide, slot) && slot !in KeptSlots(world.memory, existing, world.wide)
           && slot !in world.guards && slot !in unbound && IsCalled(world.calls, slot)
  {
    hide Append, Apart, Owns, Owned, Gather, AllSoundCandidates, InOrder, RecoveredSlots, KeptSlots, IsCalled, From, Settled;
    if Total(plan.groups) >= MAX_IMPORTS || |plan.groups| >= MAX_GROUPS {
      NothingNew(plan.groups, world.wide);
    } else {
      var taken := TakenSlots(world, plan, existing, unbound);
      var limit := MAX_IMPORTS - Total(plan.groups);
      var found := Gather(world, world.calls, taken, limit, Gathered([], plan.ambiguous));
      NoCandidates(world);
      GatherFinds(world, world.calls, taken, limit, Gathered([], plan.ambiguous), world.calls);
      NothingSettled(world.wide, found.candidates);
      assert plan.groups == plan.groups + [];
      AppendApart(world, plan.(ambiguous := found.ambiguous), plan.groups, [], None, found.candidates, found.candidates, 1, Inferred);
      var groups := Recover(world, plan, existing, unbound).groups;
      forall g, slot: nat | g in groups[|plan.groups|..] && Owns(g, world.wide, slot)
        ensures !Owned(plan.groups, world.wide, slot) && slot !in taken && IsCalled(world.calls, slot)
      {
        var c := CandidateOf(g, world.wide, found.candidates, slot);
        assert slot !in taken && IsCalled(world.calls, slot);
        CalledBelow(world.calls, slot);
        if Owned(plan.groups, world.wide, slot) {
          OwnedAreRecovered(plan.groups, world.wide, slot);
        }
      }
    }
  }

  lemma CandidateOf(group: Group, wide: bool, candidates: seq<Candidate>, slot: nat) returns (c: Candidate)
    requires From(group, wide, candidates) && Owns(group, wide, slot)
    ensures c in candidates && c.slot == slot
  {
    hide Owns;
    c :| c in candidates && c.slot == slot;
  }

  lemma CalledBelow(calls: seq<Call>, slot: nat)
    requires IsCalled(calls, slot) && forall c :: c in calls ==> c.slot < U32
    ensures slot < U32
  {
  }

  lemma NothingNew(groups: seq<Group>, wide: bool)
    ensures groups[|groups|..] == [] && Apart([], wide)
  {
  }

  lemma NothingSettled(wide: bool, candidates: seq<Candidate>)
    ensures Settled([], wide, candidates, candidates)
  {
  }

  lemma NoCandidates(world: World)
    ensures AllSoundCandidates(world, []) && InOrder([])
  {
  }

  lemma RecoverKeeps(world: World, plan: Plan, existing: seq<byte>, unbound: set<nat>)
    requires Ascending(world.calls) && forall c :: c in world.calls ==> c.slot < U32
    requires Bounded(plan.groups) && AllSound(world, plan.groups)
    ensures var groups := Recover(world, plan, existing, unbound).groups; Bounded(groups) && AllSound(world, groups)
  {
    hide Append, Gather, AllSoundCandidates, InOrder, RecoveredSlots, KeptSlots, IsCalled, AllSound;
    if Total(plan.groups) < MAX_IMPORTS && |plan.groups| < MAX_GROUPS {
      var taken := TakenSlots(world, plan, existing, unbound);
      var limit := MAX_IMPORTS - Total(plan.groups);
      var found := Gather(world, world.calls, taken, limit, Gathered([], plan.ambiguous));
      NoCandidates(world);
      GatherFinds(world, world.calls, taken, limit, Gathered([], plan.ambiguous), world.calls);
      AppendKeeps(world, plan.(ambiguous := found.ambiguous), None, found.candidates, 1, Inferred);
    }
  }

  // ----- nothing is lost

  predicate Kept(world: World, c: Candidate) {
    !IsOwn(world, c.symbol) && Representable(c.symbol)
  }

  /** Candidates of one module in slots one behind the other, all of which can be imported. */
  ghost predicate Stretch(world: World, part: seq<Candidate>) {
    && part != [] && (forall c :: c in part ==> Kept(world, c))
    && forall k :: 0 <= k < |part| ==>
         && SameLetters(part[0].symbol.moduleName, part[k].symbol.moduleName)
         && part[k].slot == part[0].slot + Span(world.wide, k)
  }

  /** The group has an entry for each of them, in its slot, from entry `first` on. */
  ghost predicate HasAt(group: Group, wide: bool, part: seq<Candidate>, first: nat) {
    && first + |part| <= |group.entries|
    && forall k :: 0 <= k < |part| ==>
         group.entries[first + k] == EntryOf(part[k]) && part[k].slot == group.firstThunk + Span(wide, first + k)
  }

  ghost predicate Taken(groups: seq<Group>, wide: bool, part: seq<Candidate>) {
    exists g, first: nat :: g in groups && HasAt(g, wide, part, first)
  }

  lemma {:induction false} AppendExtends(
      world: World, plan: Plan, current: Option<Group>, candidates: seq<Candidate>, minimum: nat, source: Source)
    ensures plan.groups <= Append(world, plan, current, candidates, minimum, source).groups
    decreases |candidates|
  {
    hide Representable, IsOwn, GoesOn, Accepts;
    if candidates != [] {
      var c, rest := candidates[0], candidates[1..];
      if IsOwn(world, c.symbol) {
        AppendExtends(world, plan, current, rest, minimum, source);
      } else if !Representable(c.symbol) {
        AppendExtends(world, plan.(unrepresentable := plan.unrepresentable + 1), current, rest, minimum, source);
      } else if current.Some? && GoesOn(world, current.value, c) {
        AppendExtends(world, plan, Some(current.value.(entries := current.value.entries + [EntryOf(c)])), rest, minimum, source);
      } else {
        var pushed := if current.Some? then Pushed(plan, current.value, minimum) else plan;
        AppendExtends(world, pushed, Some(Group(c.symbol.moduleName, c.slot, [EntryOf(c)], source)), rest, minimum, source);
      }
    }
  }

  lemma TakenInMore(groups: seq<Group>, more: seq<Group>, wide: bool, group: Group, part: seq<Candidate>, first: nat)
    requires group in groups && groups <= more && HasAt(group, wide, part, first)
    ensures Taken(more, wide, part)
  {
    hide HasAt;
    var i :| 0 <= i < |groups| && groups[i] == group;
    assert more[i] == group && group in more;
  }

  predicate HasRoom(plan: Plan, group: Group, more: nat) {
    Total(plan.groups) + |group.entries| + more <= MAX_IMPORTS && |plan.groups| < MAX_GROUPS
  }

  /** A group that is long enough is taken, with whatever is added to it. */
  lemma {:induction false} LongIsTaken(
      world: World, plan: Plan, group: Group, candidates: seq<Candidate>, minimum: nat, source: Source, part: seq<Candidate>, first: nat)
    requires HasAt(group, world.wide, part, first) && |group.entries| >= minimum && HasRoom(plan, group, |candidates|)
    ensures Taken(Append(world, plan, Some(group), candidates, minimum, source).groups, world.wide, part)
    decreases |candidates|
  {
    hide Representable, IsOwn, GoesOn, Taken;
    var result := Append(world, plan, Some(group), candidates, minimum, source).groups;
    var pushed := Pushed(plan, group, minimum);
    assert group in pushed.groups;
    if candidates == [] {
      TakenInMore(pushed.groups, result, world.wide, group, part, first);
    } else {
      var c, rest := candidates[0], candidates[1..];
      if IsOwn(world, c.symbol) {
        LongIsTaken(world, plan, group, rest, minimum, source, part, first);
      } else if !Representable(c.symbol) {
        LongIsTaken(world, plan.(unrepresentable := plan.unrepresentable + 1), group, rest, minimum, source, part, first);
      } else if GoesOn(world, group, c) {
        LongIsTaken(world, plan, group.(entries := group.entries + [EntryOf(c)]), rest, minimum, source, part, first);
      } else {
        AppendExtends(world, pushed, Some(Group(c.symbol.moduleName, c.slot, [EntryOf(c)], source)), rest, minimum, source);
        TakenInMore(pushed.groups, result, world.wide, group, part, first);
      }
    }
  }

  /** The group ends with the stretch's first `count` candidates, and the others come next. */
  ghost predicate Follows(world: World, group: Group, candidates: seq<Candidate>, part: seq<Candidate>, count: nat) {
    && 0 < count <= |part| && count <= |group.entries| && HasAt(group, world.wide, part[..count], |group.entries| - count)
    && SameLetters(group.moduleName, part[0].symbol.moduleName) && part[count..] <= candidates
  }

  lemma {:induction false} RestIsTaken(
      world: World, plan: Plan, group: Group, candidates: seq<Candidate>, minimum: nat, source: Source, part: seq<Candidate>, count: nat)
    requires Stretch(world, part) && |part| >= minimum && count <= |part| && Follows(world, group, candidates, part, count)
    requires HasRoom(plan, group, |candidates|)
    ensures Taken(Append(world, plan, Some(group), candidates, minimum, source).groups, world.wide, part)
    decreases |part| - count
  {
    hide Append, Taken, HasRoom, Follows, Stretch;
    if count == |part| {
      WholePart(world, group, candidates, part, count);
      LongIsTaken(world, plan, group, candidates, minimum, source, part, |group.entries| - |part|);
    } else {
      var c := StretchGoesOn(world, group, candidates, part, count);
      var more := group.(entries := group.entries + [EntryOf(c)]);
      StepOn(world, plan, group, candidates, minimum, source);
      RestIsTaken(world, plan, more, candidates[1..], minimum, source, part, count + 1);
    }
  }

  lemma WholePart(world: World, group: Group, candidates: seq<Candidate>, part: seq<Candidate>, count: nat)
    requires Follows(world, group, candidates, part, count) && count == |part|
    ensures |part| <= |group.entries| && HasAt(group, world.wide, part, |group.entries| - |part|)
  {
    assert part[..count] == part;
  }

  lemma StretchGoesOn(world: World, group: Group, candidates: seq<Candidate>, part: seq<Candidate>, count: nat) returns (c: Candidate)
    requires Stretch(world, part) && Follows(world, group, candidates, part, count) && count < |part|
    ensures candidates != [] && c == candidates[0] && Kept(world, c) && GoesOn(world, group, c)
    ensures Follows(world, group.(entries := group.entries + [EntryOf(c)]), candidates[1..], part, count + 1)
  {
    hide Representable, IsOwn, SameLetters;
    c := part[count];
    var more := group.(entries := group.entries + [EntryOf(c)]);
    assert part[count..][0] == c && part[count + 1..] == part[count..][1..];
    assert c in part && part[..count][0] == part[0];
    assert SameLetters(part[0].symbol.moduleName, c.symbol.moduleName);
    SameLettersFollow(group.moduleName, part[0].symbol.moduleName, c.symbol.moduleName);
    assert part[0].slot == group.firstThunk + Span(world.wide, |group.entries| - count);
    assert c.slot == group.firstThunk + Span(world.wide, |group.entries|);
    var head, first := part[..count + 1], |group.entries| - count;
    forall k | 0 <= k < |head|
      ensures more.entries[first + k] == EntryOf(head[k]) && head[k].slot == more.firstThunk + Span(world.wide, first + k)
    {
      if k < count {
        assert part[..count][k] == part[k];
      }
    }
  }

  lemma SameLettersFollow(a: Text, b: Text, c: Text)
    requires SameLetters(a, b) && SameLetters(b, c)
    ensures SameLetters(a, c)
  {
    hide Lower;
  }

  lemma StepOn(world: World, plan: Plan, group: Group, candidates: seq<Candidate>, minimum: nat, source: Source)
    requires candidates != [] && Kept(world, candidates[0]) && GoesOn(world, group, candidates[0]) && HasRoom(plan, group, |candidates|)
    ensures var more := group.(entries := group.entries + [EntryOf(candidates[0])]);
      && HasRoom(plan, more, |candidates[1..]|)
      && Append(world, plan, Some(group), candidates, minimum, source)
         == Append(world, plan, Some(more), candidates[1..], minimum, source)
  {
    hide Representable, IsOwn, GoesOn;
  }

  /** This many more entries, in at most `at` groups more than there are, are within the limits. */
  predicate Roomy(groups: seq<Group>, current: Option<Group>, entries: nat, at: nat) {
    && Total(groups) + (if current.Some? then |current.value.entries| else 0) + entries <= MAX_IMPORTS
    && |With(groups, current)| + at < MAX_GROUPS
  }

  lemma RoomyNext(plan: Plan, current: Option<Group>, minimum: nat, next: Group, entries: nat, at: nat)
    requires Roomy(plan.groups, current, entries, at) && entries > 0 && |next.entries| == 1
    ensures var pushed := if current.Some? then Pushed(plan, current.value, minimum) else plan;
      && HasRoom(pushed, next, entries - 1) && (at > 0 ==> Roomy(pushed.groups, Some(next), entries - 1, at - 1))
    ensures at > 0 ==> Roomy(plan.groups, current, entries - 1, at - 1)
  {
    if current.Some? {
      TotalOfMore(plan.groups, current.value);
    }
  }

  lemma RoomyMore(plan: Plan, group: Group, entry: Entry, entries: nat, at: nat)
    requires Roomy(plan.groups, Some(group), entries, at) && entries > 0
    ensures var more := group.(entries := group.entries + [entry]);
      HasRoom(plan, more, entries - 1) && (at > 0 ==> Roomy(plan.groups, Some(more), entries - 1, at - 1))
  {
  }

  /** Where the limits leave room, each stretch of at least `minimum` candidates is in one group afterwards. */
  lemma {:induction false} StretchIsTaken(
      world: World, plan: Plan, current: Option<Group>, candidates: seq<Candidate>, minimum: nat, source: Source, part: seq<Candidate>,
      at: nat)
    requires Stretch(world, part) && |part| >= minimum && at <= |candidates| && part <= candidates[at..]
    requires Roomy(plan.groups, current, |candidates|, at)
    ensures Taken(Append(world, plan, current, candidates, minimum, source).groups, world.wide, part)
    decreases |candidates|
  {
    hide Representable, IsOwn, GoesOn, Taken, Stretch, Pushed, Roomy, HasRoom;
    StretchIsThere(world, candidates, part, at);
    var c, rest := candidates[0], candidates[1..];
    var pushed := if current.Some? then Pushed(plan, current.value, minimum) else plan;
    var next := Group(c.symbol.moduleName, c.slot, [EntryOf(c)], source);
    RoomyNext(plan, current, minimum, next, |candidates|, at);
    if current.Some? {
      RoomyMore(plan, current.value, EntryOf(c), |candidates|, at);
    }
    if at == 0 {
      StretchBegins(world, candidates, part, source);
      if current.Some? && GoesOn(world, current.value, c) {
        var more := current.value.(entries := current.value.entries + [EntryOf(c)]);
        StretchJoins(world, current.value, candidates, part);
        RestIsTaken(world, plan, more, rest, minimum, source, part, 1);
      } else {
        RestIsTaken(world, pushed, next, rest, minimum, source, part, 1);
      }
    } else if IsOwn(world, c.symbol) {
      StretchIsTaken(world, plan, current, rest, minimum, source, part, at - 1);
    } else if !Representable(c.symbol) {
      StretchIsTaken(world, plan.(unrepresentable := plan.unrepresentable + 1), current, rest, minimum, source, part, at - 1);
    } else if current.Some? && GoesOn(world, current.value, c) {
      var more := current.value.(entries := current.value.entries + [EntryOf(c)]);
      StretchIsTaken(world, plan, Some(more), rest, minimum, source, part, at - 1);
    } else {
      StretchIsTaken(world, pushed, Some(next), rest, minimum, source, part, at - 1);
    }
  }

  lemma StretchIsThere(world: World, candidates: seq<Candidate>, part: seq<Candidate>, at: nat)
    requires Stretch(world, part) && at <= |candidates| && part <= candidates[at..]
    ensures candidates != [] && (at > 0 ==> candidates[at..] == candidates[1..][at - 1..])
  {
  }

  lemma StretchBegins(world: World, candidates: seq<Candidate>, part: seq<Candidate>, source: Source)
    requires Stretch(world, part) && part <= candidates[0..]
    ensures candidates != [] && Kept(world, candidates[0])
    ensures var c := candidates[0]; Follows(world, Group(c.symbol.moduleName, c.slot, [EntryOf(c)], source), candidates[1..], part, 1)
  {
    assert candidates[0..] == candidates && part[0] == candidates[0] && part[0] in part;
    assert part[1..] <= candidates[1..];
  }

  lemma StretchJoins(world: World, group: Group, candidates: seq<Candidate>, part: seq<Candidate>)
    requires Stretch(world, part) && part <= candidates[0..] && candidates != [] && GoesOn(world, group, candidates[0])
    ensures Follows(world, group.(entries := group.entries + [EntryOf(candidates[0])]), candidates[1..], part, 1)
  {
    assert candidates[0..] == candidates && part[0] == candidates[0];
    assert part[1..] <= candidates[1..];
  }

  /** What is taken is owned. */
  lemma TakenIsOwned(groups: seq<Group>, wide: bool, part: seq<Candidate>, c: Candidate)
    requires Taken(groups, wide, part) && c in part
    ensures Owned(groups, wide, c.slot)
  {
    var g, first: nat :| g in groups && HasAt(g, wide, part, first);
    var k :| 0 <= k < |part| && part[k] == c;
    assert first + k < |g.entries| && c.slot == g.firstThunk + Span(wide, first + k);
    assert Owns(g, wide, c.slot);
  }

  /** A run is unbroken, and goes on until something stops it. */
  lemma {:induction false} RunIsLongest(world: World, offset: nat, end: nat, taken: seq<Candidate>)
    requires |taken| <= MAX_IMPORTS
    ensures var run := Run(world, offset, end, taken);
      && taken <= run.candidates && run.offset == offset + Span(world.wide, |run.candidates| - |taken|)
      && (forall i :: |taken| <= i < |run.candidates| ==> run.candidates[i].slot == offset + Span(world.wide, i - |taken|))
      && (run.offset + Width(world.wide) <= end && |run.candidates| < MAX_IMPORTS && run.offset < U32 ==>
            var value := ReadPointer(world.memory, run.offset, world.wide);
            value.None? || world.resolve(value.value).Unresolved? || world.resolve(value.value).ambiguous)
    decreases if offset < end then end - offset else 0
  {
    hide ReadPointer;
    if offset + Width(world.wide) <= end && |taken| < MAX_IMPORTS && offset < U32 && ReadPointer(world.memory, offset, world.wide).Some? {
      var found := world.resolve(ReadPointer(world.memory, offset, world.wide).value);
      if found.Resolved? && !found.ambiguous {
        var next := offset + Width(world.wide);
        RunIsLongest(world, next, end, taken + [Candidate(offset, found.symbol, found.aliased)]);
      }
    }
  }

  /** Where there is room, each stretch of a clean run with the scan's minimum of slots is in one group. */
  lemma CleanRunIsTaken(world: World, scan: Scan, aligned: nat, offset: nat, plan: Plan, from: nat, to: nat)
    requires var run := Run(world, offset, scan.end, []);
      && from < to <= |run.candidates| && to - from >= scan.minimum && Clean(world, aligned, offset, run.offset, scan.end)
      && (forall c :: c in run.candidates[from..to] ==>
            Kept(world, c) && SameLetters(run.candidates[from].symbol.moduleName, c.symbol.moduleName))
      && Total(plan.groups) + |run.candidates| <= MAX_IMPORTS && |plan.groups| + from < MAX_GROUPS
    ensures Taken(ScanOne(world, scan, aligned, offset, plan).groups, world.wide, Run(world, offset, scan.end, []).candidates[from..to])
  {
    hide Run, Clean, Mixed, Append, Taken, Kept, Stretch, SameLetters;
    var run := Run(world, offset, scan.end, []);
    var noted := Noted(plan, run.ambiguous);
    var counted := if Mixed(run.candidates) then noted.(mixedRuns := noted.mixedRuns + 1) else noted;
    RunIsStretch(world, offset, scan.end, from, to);
    assert run.candidates[from..to] <= run.candidates[from..];
    StretchIsTaken(world, counted, None, run.candidates, scan.minimum, scan.source, run.candidates[from..to], from);
  }

  lemma RunIsStretch(world: World, offset: nat, end: nat, from: nat, to: nat)
    requires var run := Run(world, offset, end, []);
      && from < to <= |run.candidates|
      && forall c :: c in run.candidates[from..to] ==>
           Kept(world, c) && SameLetters(run.candidates[from].symbol.moduleName, c.symbol.moduleName)
    ensures Stretch(world, Run(world, offset, end, []).candidates[from..to])
  {
    hide Run, Kept, SameLetters;
    RunIsLongest(world, offset, end, []);
    var all, part := Run(world, offset, end, []).candidates, Run(world, offset, end, []).candidates[from..to];
    forall k | 0 <= k < |part|
      ensures SameLetters(part[0].symbol.moduleName, part[k].symbol.moduleName) && part[k].slot == part[0].slot + Span(world.wide, k)
    {
      assert part[k] in part && part[k] == all[from + k] && part[0] == all[from];
    }
  }

  // ----- the scan reaches every clean run

  lemma {:induction false} TotalOfPrefix(groups: seq<Group>, more: seq<Group>)
    requires groups <= more
    ensures Total(groups) <= Total(more) && |groups| <= |more|
    decreases |more|
  {
    if |groups| < |more| {
      assert groups <= more[..|more| - 1];
      TotalOfPrefix(groups, more[..|more| - 1]);
    } else {
      assert groups == more;
    }
  }

  /** Whether this many more entries, in one more group, are still within the limits. */
  predicate RoomLeft(groups: seq<Group>, entries: nat) {
    Total(groups) + entries <= MAX_IMPORTS && |groups| < MAX_GROUPS
  }

  lemma RoomBefore(groups: seq<Group>, more: seq<Group>, entries: nat)
    requires groups <= more && RoomLeft(more, entries)
    ensures RoomLeft(groups, entries)
  {
    TotalOfPrefix(groups, more);
  }

  /** As StretchIsTaken, with room that is still there afterwards. */
  lemma {:induction false} StretchTakenWithRoom(
      world: World, plan: Plan, current: Option<Group>, candidates: seq<Candidate>, minimum: nat, source: Source, part: seq<Candidate>,
      at: nat)
    requires Stretch(world, part) && |part| >= minimum && at <= |candidates| && part <= candidates[at..]
    requires RoomLeft(Append(world, plan, current, candidates, minimum, source).groups,
                      (if current.Some? then |current.value.entries| else 0) + |candidates|)
    ensures Taken(Append(world, plan, current, candidates, minimum, source).groups, world.wide, part)
    decreases |candidates|
  {
    hide Representable, IsOwn, GoesOn, Taken, Stretch, Pushed, RoomLeft;
    StretchIsThere(world, candidates, part, at);
    var result := Append(world, plan, current, candidates, minimum, source).groups;
    var have := if current.Some? then |current.value.entries| else 0;
    var c, rest := candidates[0], candidates[1..];
    var pushed := if current.Some? then Pushed(plan, current.value, minimum) else plan;
    var next := Group(c.symbol.moduleName, c.slot, [EntryOf(c)], source);
    if at == 0 {
      StretchBegins(world, candidates, part, source);
      if current.Some? && GoesOn(world, current.value, c) {
        var more := current.value.(entries := current.value.entries + [EntryOf(c)]);
        StretchJoins(world, current.value, candidates, part);
        AppendExtends(world, plan, Some(more), rest, minimum, source);
        LeftIsRoom(plan, more, rest, result, have + |candidates|);
        RestIsTaken(world, plan, more, rest, minimum, source, part, 1);
      } else {
        AppendExtends(world, pushed, Some(next), rest, minimum, source);
        LeftIsRoom(pushed, next, rest, result, have + |candidates|);
        RestIsTaken(world, pushed, next, rest, minimum, source, part, 1);
      }
    } else if IsOwn(world, c.symbol) {
      LessRoom(result, have + |candidates|, have + |rest|);
      StretchTakenWithRoom(world, plan, current, rest, minimum, source, part, at - 1);
    } else if !Representable(c.symbol) {
      LessRoom(result, have + |candidates|, have + |rest|);
      StretchTakenWithRoom(world, plan.(unrepresentable := plan.unrepresentable + 1), current, rest, minimum, source, part, at - 1);
    } else if current.Some? && GoesOn(world, current.value, c) {
      var more := current.value.(entries := current.value.entries + [EntryOf(c)]);
      StretchTakenWithRoom(world, plan, Some(more), rest, minimum, source, part, at - 1);
    } else {
      LessRoom(result, have + |candidates|, 1 + |rest|);
      StretchTakenWithRoom(world, pushed, Some(next), rest, minimum, source, part, at - 1);
    }
  }

  lemma LessRoom(groups: seq<Group>, entries: nat, fewer: nat)
    requires RoomLeft(groups, entries) && fewer <= entries
    ensures RoomLeft(groups, fewer)
  {
  }

  lemma LeftIsRoom(plan: Plan, group: Group, rest: seq<Candidate>, result: seq<Group>, entries: nat)
    requires plan.groups <= result && RoomLeft(result, entries) && |group.entries| + |rest| <= entries
    ensures HasRoom(plan, group, |rest|)
  {
    RoomBefore(plan.groups, result, entries);
  }

  lemma ScanOneExtends(world: World, scan: Scan, aligned: nat, offset: nat, plan: Plan)
    ensures plan.groups <= ScanOne(world, scan, aligned, offset, plan).groups
  {
    hide Run, Clean, Mixed, Append;
    var run := Run(world, offset, scan.end, []);
    var noted := Noted(plan, run.ambiguous);
    var counted := if Mixed(run.candidates) then noted.(mixedRuns := noted.mixedRuns + 1) else noted;
    AppendExtends(world, counted, None, run.candidates, scan.minimum, scan.source);
  }

  lemma {:induction false} ScanExtends(world: World, scan: Scan, aligned: nat, offset: nat, plan: Plan)
    ensures plan.groups <= ScanFrom(world, scan, aligned, offset, plan).groups
    decreases if offset < scan.end then scan.end - offset else 0
  {
    hide ScanOne, Next;
    if offset + Width(world.wide) <= scan.end && Total(plan.groups) < MAX_IMPORTS {
      ScanOneExtends(world, scan, aligned, offset, plan);
      NextIsLater(world, offset, scan.end);
      ScanExtends(world, scan, aligned, Next(world, offset, scan.end), ScanOne(world, scan, aligned, offset, plan));
    }
  }

  lemma RunHasNoZero(world: World, offset: nat, end: nat, k: nat)
    requires world.resolve(0).Unresolved? && k < |Run(world, offset, end, []).candidates|
    ensures ReadPointer(world.memory, offset + Span(world.wide, k), world.wide) != Some(0)
  {
    hide ReadPointer, Run;
    RunIsLongest(world, offset, end, []);
    RunIsSound(world, offset, end, []);
    var c := Run(world, offset, end, []).candidates[k];
    assert c in Run(world, offset, end, []).candidates && SoundCandidate(world, c);
  }

  /** A run does not pass a slot whose pointer is zero. */
  lemma StepsStayBehind(world: World, offset: nat, end: nat, slots: nat) returns (passed: nat)
    requires world.resolve(0).Unresolved? && slots > 0
    requires ReadPointer(world.memory, offset + Span(world.wide, slots - 1), world.wide) == Some(0)
    ensures 0 < passed <= slots && Next(world, offset, end) == offset + Span(world.wide, passed)
  {
    hide ReadPointer, Run;
    RunIsLongest(world, offset, end, []);
    RunIsSound(world, offset, end, []);
    var run := Run(world, offset, end, []);
    if |run.candidates| >= slots {
      RunHasNoZero(world, offset, end, slots - 1);
      assert false;
    }
    passed := if |run.candidates| == 0 then 1 else |run.candidates|;
  }

  lemma {:induction false} ScanReaches(
      world: World, scan: Scan, aligned: nat, offset: nat, plan: Plan, slots: nat, from: nat, to: nat)
    requires world.resolve(0).Unresolved?
    requires var at := offset + Span(world.wide, slots);
      var run := Run(world, at, scan.end, []);
      && (slots == 0 || ReadPointer(world.memory, offset + Span(world.wide, slots - 1), world.wide) == Some(0))
      && Clean(world, aligned, at, run.offset, scan.end)
      && from < to <= |run.candidates| && to - from >= scan.minimum && Stretch(world, run.candidates[from..to])
      && RoomLeft(ScanFrom(world, scan, aligned, offset, plan).groups, |run.candidates|)
    ensures Taken(ScanFrom(world, scan, aligned, offset, plan).groups, world.wide,
                  Run(world, offset + Span(world.wide, slots), scan.end, []).candidates[from..to])
    decreases slots
  {
    hide ReadPointer, Run, Clean, ScanOne, Taken, Stretch, Next;
    var at := offset + Span(world.wide, slots);
    var run := Run(world, at, scan.end, []);
    var result := ScanFrom(world, scan, aligned, offset, plan).groups;
    RunFits(world, at, scan.end);
    ScanExtends(world, scan, aligned, offset, plan);
    TotalOfPrefix(plan.groups, result);
    var one, next := ScanOne(world, scan, aligned, offset, plan), Next(world, offset, scan.end);
    ScanExtends(world, scan, aligned, next, one);
    if slots == 0 {
      RoomBefore(one.groups, result, |run.candidates|);
      RunTakenWithRoom(world, scan, aligned, at, plan, from, to);
      TakenStays(one.groups, result, world.wide, run.candidates[from..to]);
    } else {
      var passed := StepsStayBehind(world, offset, scan.end, slots);
      assert next + Span(world.wide, slots - passed) == at;
      ScanReaches(world, scan, aligned, next, one, slots - passed, from, to);
    }
  }

  lemma RunFits(world: World, at: nat, end: nat)
    ensures Run(world, at, end, []).candidates != [] ==> at + Width(world.wide) <= end
  {
    hide ReadPointer;
  }

  lemma TakenStays(groups: seq<Group>, more: seq<Group>, wide: bool, part: seq<Candidate>)
    requires Taken(groups, wide, part) && groups <= more
    ensures Taken(more, wide, part)
  {
    hide HasAt;
    var g, first: nat :| g in groups && HasAt(g, wide, part, first);
    TakenInMore(groups, more, wide, g, part, first);
  }

  lemma RunTakenWithRoom(world: World, scan: Scan, aligned: nat, offset: nat, plan: Plan, from: nat, to: nat)
    requires var run := Run(world, offset, scan.end, []);
      && from < to <= |run.candidates| && to - from >= scan.minimum && Clean(world, aligned, offset, run.offset, scan.end)
      && Stretch(world, run.candidates[from..to])
      && RoomLeft(ScanOne(world, scan, aligned, offset, plan).groups, |run.candidates|)
    ensures Taken(ScanOne(world, scan, aligned, offset, plan).groups, world.wide, Run(world, offset, scan.end, []).candidates[from..to])
  {
    hide Run, Clean, Mixed, Append, Taken, Kept, Stretch, RoomLeft;
    var run := Run(world, offset, scan.end, []);
    var noted := Noted(plan, run.ambiguous);
    var counted := if Mixed(run.candidates) then noted.(mixedRuns := noted.mixedRuns + 1) else noted;
    assert run.candidates[from..to] <= run.candidates[from..];
    StretchTakenWithRoom(world, counted, None, run.candidates, scan.minimum, scan.source, run.candidates[from..to], from);
  }

  /** A slot's pointer leads to one export, which can be imported from a module of this name. */
  ghost predicate Leads(world: World, slot: nat, moduleName: Text) {
    slot < U32 && ReadPointer(world.memory, slot, world.wide).Some?
    && var found := world.resolve(ReadPointer(world.memory, slot, world.wide).value);
    && found.Resolved? && !found.ambiguous && SameLetters(moduleName, found.symbol.moduleName)
    && Representable(found.symbol) && !IsOwn(world, found.symbol)
  }

  /** Some group has an entry for each of these slots, with the export's own name and ordinal. */
  ghost predicate Imported(world: World, groups: seq<Group>, slot: nat, count: nat) {
    exists g, first: nat :: g in groups && Imports(world, g, slot, count, first)
  }

  ghost predicate Imports(world: World, group: Group, slot: nat, count: nat, first: nat) {
    && first + count <= |group.entries| && slot == group.firstThunk + Span(world.wide, first)
    && forall k :: 0 <= k < count ==>
         var value := ReadPointer(world.memory, slot + Span(world.wide, k), world.wide);
         && value.Some? && world.resolve(value.value).Resolved?
         && var symbol := world.resolve(value.value).symbol;
         group.entries[first + k].name == symbol.name && group.entries[first + k].ordinal == symbol.ordinal
  }

  /** Pointers that lead to one export each, from this slot on. */
  ghost predicate Unbroken(world: World, slot: nat, count: nat) {
    forall k :: 0 <= k < count ==>
      var at := slot + Span(world.wide, k);
      && at < U32 && ReadPointer(world.memory, at, world.wide).Some?
      && var found := world.resolve(ReadPointer(world.memory, at, world.wide).value);
      found.Resolved? && !found.ambiguous
  }

  lemma UnbrokenRest(world: World, slot: nat, count: nat)
    requires count > 0 && Unbroken(world, slot, count)
    ensures Unbroken(world, slot + Width(world.wide), count - 1)
  {
    hide ReadPointer;
    var next := slot + Width(world.wide);
    forall k | 0 <= k < count - 1
      ensures var at := next + Span(world.wide, k);
        && at < U32 && ReadPointer(world.memory, at, world.wide).Some?
        && var found := world.resolve(ReadPointer(world.memory, at, world.wide).value);
        found.Resolved? && !found.ambiguous
    {
      assert next + Span(world.wide, k) == slot + Span(world.wide, k + 1);
    }
  }

  /** A run is as long as its pointers are unbroken, if it ends at a zero or at the range's end. */
  lemma {:induction false} RunHasAll(world: World, slot: nat, end: nat, count: nat, taken: seq<Candidate>)
    requires world.resolve(0).Unresolved? && Unbroken(world, slot, count) && |taken| + count <= MAX_IMPORTS
    requires slot + Span(world.wide, count) <= end
    requires slot + Span(world.wide, count) == end || ReadPointer(world.memory, slot + Span(world.wide, count), world.wide) == Some(0)
    ensures |Run(world, slot, end, taken).candidates| == |taken| + count
    ensures Run(world, slot, end, taken).offset == slot + Span(world.wide, count)
    decreases count
  {
    hide ReadPointer;
    if count > 0 {
      var at := slot + Span(world.wide, 0);
      var found := world.resolve(ReadPointer(world.memory, at, world.wide).value);
      var next := slot + Width(world.wide);
      UnbrokenRest(world, slot, count);
      RunHasAll(world, next, end, count - 1, taken + [Candidate(slot, found.symbol, found.aliased)]);
    }
  }

  /**
    * Over a whole range: at each slot of the grid that is the first or stands behind a zero, pointers
    * that run unbroken to the next zero or to the end are a run, and every stretch of it that leads to
    * one module and has the minimum of slots is in one group afterwards, if there is still room then.
    */
  lemma RangeTakesCleanRuns(world: World, scan: Scan, plan: Plan, first: nat, slots: nat, count: nat, from: nat, to: nat, moduleName: Text)
    requires world.resolve(0).Unresolved?
    requires scan.start <= first < scan.start + Span(world.wide, 1) && first % (if world.wide then 8 else 4) == 0
    requires var at := first + Span(world.wide, slots);
      && (slots == 0 || ReadPointer(world.memory, at - Span(world.wide, 1), world.wide) == Some(0))
      && Unbroken(world, at, count) && at + Span(world.wide, count) <= scan.end
      && (at + Span(world.wide, count) == scan.end || ReadPointer(world.memory, at + Span(world.wide, count), world.wide) == Some(0))
      && from < to <= count && to - from >= scan.minimum
      && forall k :: from <= k < to ==> Leads(world, at + Span(world.wide, k), moduleName)
    requires RoomLeft(ScanRange(world, scan, plan).groups, count)
    ensures Imported(world, ScanRange(world, scan, plan).groups, first + Span(world.wide, slots + from), to - from)
  {
    hide ReadPointer, Run, ScanFrom, Taken, Stretch, Unbroken, Leads, Imported;
    var at := first + Span(world.wide, slots);
    RunHasAll(world, at, scan.end, count, []);
    FirstIsAligned(world, scan, first);
    var part := RunPart(world, at, scan.end, from, to, moduleName);
    ScanReaches(world, scan, first, first, plan, slots, from, to);
    TakenIsImported(world, ScanRange(world, scan, plan).groups, part);
  }

  lemma FirstIsAligned(world: World, scan: Scan, first: nat)
    requires scan.start <= first < scan.start + Span(world.wide, 1) && first % (if world.wide then 8 else 4) == 0
    ensures Aligned(scan.start, world.wide) == first
  {
    if world.wide {
      NextMultiple(scan.start, first, 8);
    } else {
      NextMultiple(scan.start, first, 4);
    }
  }

  lemma NextMultiple(start: nat, first: nat, width: nat)
    requires width == 4 || width == 8
    requires start <= first < start + width && first % width == 0
    ensures start + (width - start % width) % width == first
  {
    var past := first - start;
    if past > 0 {
      assert start == width * (first / width - 1) + (width - past);
    }
  }

  lemma RunPart(world: World, at: nat, end: nat, from: nat, to: nat, moduleName: Text) returns (part: seq<Candidate>)
    requires from < to <= |Run(world, at, end, []).candidates|
    requires forall k :: from <= k < to ==> Leads(world, at + Span(world.wide, k), moduleName)
    ensures part == Run(world, at, end, []).candidates[from..to] && Stretch(world, part)
    ensures part[0].slot == at + Span(world.wide, from) && AllSoundCandidates(world, part)
    ensures forall k :: 0 <= k < |part| ==> part[k].slot == part[0].slot + Span(world.wide, k)
  {
    hide ReadPointer, Run, Representable, IsOwn, SameLetters;
    RunIsLongest(world, at, end, []);
    RunIsSound(world, at, end, []);
    var all := Run(world, at, end, []).candidates;
    part := all[from..to];
    forall k | 0 <= k < |part|
      ensures Kept(world, part[k]) && SameLetters(part[0].symbol.moduleName, part[k].symbol.moduleName)
      ensures part[k].slot == part[0].slot + Span(world.wide, k)
    {
      assert part[k] == all[from + k] && part[0] == all[from] && all[from + k] in all && all[from] in all;
      assert Leads(world, at + Span(world.wide, from + k), moduleName) && Leads(world, at + Span(world.wide, from), moduleName);
      SameLettersBack(moduleName, part[0].symbol.moduleName, part[k].symbol.moduleName);
    }
  }

  lemma SameLettersBack(a: Text, b: Text, c: Text)
    requires SameLetters(a, b) && SameLetters(a, c)
    ensures SameLetters(b, c)
  {
    hide Lower;
  }

  lemma TakenIsImported(world: World, groups: seq<Group>, part: seq<Candidate>)
    requires Taken(groups, world.wide, part) && part != [] && AllSoundCandidates(world, part)
    requires forall k :: 0 <= k < |part| ==> part[k].slot == part[0].slot + Span(world.wide, k)
    ensures Imported(world, groups, part[0].slot, |part|)
  {
    hide ReadPointer;
    var g, first: nat :| g in groups && HasAt(g, world.wide, part, first);
    forall k | 0 <= k < |part|
      ensures SoundCandidate(world, part[k]) && g.entries[first + k] == EntryOf(part[k])
    {
      assert part[k] in part;
    }
    assert Imports(world, g, part[0].slot, |part|, first);
  }

  lemma {:induction false} GatherTakesAll(world: World, calls: seq<Call>, taken: set<nat>, limit: nat, so: Gathered)
    requires |so.candidates| + |calls| <= limit
    ensures var found := Gather(world, calls, taken, limit, so).candidates;
      && so.candidates <= found && |found| <= |so.candidates| + |calls|
      && forall call :: call in calls && Look(world, call, taken).Found? ==> Look(world, call, taken).candidate in found
    decreases |calls|
  {
    hide Look;
    if calls != [] {
      var next := match Look(world, calls[0], taken)
        case Skip => so
        case Ambiguous => so.(ambiguous := so.ambiguous + {calls[0].slot})
        case Found(c) => so.(candidates := so.candidates + [c]);
      GatherTakesAll(world, calls[1..], taken, limit, next);
      assert calls == [calls[0]] + calls[1..];
      var found := Gather(world, calls, taken, limit, so).candidates;
      if Look(world, calls[0], taken).Found? {
        assert found[|so.candidates|] == next.candidates[|so.candidates|] == Look(world, calls[0], taken).candidate;
      }
    }
  }

  /** Where there is room, every slot that recovery finds gets into a group. */
  lemma RecoverTakesAll(world: World, plan: Plan, existing: seq<byte>, unbound: set<nat>)
    requires Total(plan.groups) + |world.calls| < MAX_IMPORTS && |plan.groups| + |world.calls| < MAX_GROUPS
    ensures var taken := TakenSlots(world, plan, existing, unbound);
      forall call :: call in world.calls && Look(world, call, taken).Found? && Kept(world, Look(world, call, taken).candidate) ==>
        Owned(Recover(world, plan, existing, unbound).groups, world.wide, call.slot)
  {
    hide Append, Gather, Owned, Kept, NeighborShares, RecoveredSlots, KeptSlots, ReadPointer, Taken, Stretch;
    var taken := TakenSlots(world, plan, existing, unbound);
    var limit := MAX_IMPORTS - Total(plan.groups);
    var found := Gather(world, world.calls, taken, limit, Gathered([], plan.ambiguous));
    GatherTakesAll(world, world.calls, taken, limit, Gathered([], plan.ambiguous));
    var counted := plan.(ambiguous := found.ambiguous);
    forall c | c in found.candidates && Kept(world, c)
      ensures Owned(Append(world, counted, None, found.candidates, 1, Inferred).groups, world.wide, c.slot)
    {
      var at :| 0 <= at < |found.candidates| && found.candidates[at] == c;
      OneIsStretch(world, c);
      assert [c] <= found.candidates[at..];
      StretchIsTaken(world, counted, None, found.candidates, 1, Inferred, [c], at);
      TakenIsOwned(Append(world, counted, None, found.candidates, 1, Inferred).groups, world.wide, [c], c);
    }
  }

  lemma OneIsStretch(world: World, c: Candidate)
    requires Kept(world, c)
    ensures Stretch(world, [c])
  {
    hide Kept;
  }

  lemma TotalOfMore(groups: seq<Group>, group: Group)
    ensures Total(groups + [group]) == Total(groups) + |group.entries|
  {
    assert (groups + [group])[..|groups|] == groups;
  }

  // ----- any sequence of scans

  datatype Step = ScanStep(scan: Scan) | RecoverStep(existing: seq<byte>, unbound: set<nat>)

  function After(world: World, plan: Plan, steps: seq<Step>): Plan
    decreases |steps|
  {
    if steps == [] then plan
    else
      var next := match steps[0]
        case ScanStep(scan) => ScanRange(world, scan, plan)
        case RecoverStep(existing, unbound) => Recover(world, plan, existing, unbound);
      After(world, next, steps[1..])
  }

  /** Whatever is scanned, the plan stays in bounds and every entry is what its slot resolves to. */
  lemma {:induction false} AnyScansKeep(world: World, plan: Plan, steps: seq<Step>)
    requires Ascending(world.calls) && forall c :: c in world.calls ==> c.slot < U32
    requires Bounded(plan.groups) && AllSound(world, plan.groups)
    ensures var groups := After(world, plan, steps).groups; Bounded(groups) && AllSound(world, groups)
    decreases |steps|
  {
    hide ScanFrom, Recover, AllSound, Bounded;
    if steps != [] {
      match steps[0]
      case ScanStep(scan) =>
        var aligned := Aligned(scan.start, world.wide);
        ScanKeeps(world, scan, aligned, aligned, plan);
        AnyScansKeep(world, ScanRange(world, scan, plan), steps[1..]);
      case RecoverStep(existing, unbound) =>
        RecoverKeeps(world, plan, existing, unbound);
        AnyScansKeep(world, Recover(world, plan, existing, unbound), steps[1..]);
    }
  }
}
