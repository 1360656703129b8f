/**
  * Which slots recovery by references adds to a plan, told from the image and the plan alone: by what the
  * slot and its neighbors point to, and by who has the slot already.
  */
module ImportRecovery {
  import opened Wrappers
  import opened Bytes
  import opened Texts
  import opened ImportPlan

  // ----- who has a slot

  ghost predicate IsSet(world: World, slot: nat) {
    var thunk := ReadPointer(world.memory, slot, world.wide);
    thunk.Some? && thunk.value != 0
  }

  /** The slot is in a table of thunks, counted from entry `index`, none of which ends it before. */
  ghost predicate InThunks(world: World, table: nat, index: nat, slot: nat) {
    exists k: nat :: IsThunk(world, table, index, k) && slot == table + Span(world.wide, k)
  }

  ghost predicate IsThunk(world: World, table: nat, index: nat, k: nat) {
    && index <= k < 65536 && table + Span(world.wide, k) < 0x1_0000_0000
    && forall j: nat :: index <= j <= k ==> IsSet(world, table + Span(world.wide, j))
  }

  /** Some whole descriptor of twenty bytes has the slot in the table its last four bytes name. */
  ghost predicate InKept(world: World, existing: seq<byte>, slot: nat) {
    exists d: nat :: Names(world, existing, d, slot)
  }

  ghost predicate Names(world: World, existing: seq<byte>, d: nat, slot: nat) {
    20 * d + 20 <= |existing| && InThunks(world, U32At(existing[20 * d..], 16), 0, slot)
  }

  lemma {:induction false} ThunkSlotsIff(world: World, table: nat, index: nat, slot: nat)
    ensures slot in ThunkSlots(world.memory, table, index, world.wide) <==> InThunks(world, table, index, slot)
    decreases MAX_IMPORTS - index
  {
    hide ReadPointer, InThunks;
    var first := table + Span(world.wide, index);
    ThunksGoOn(world, table, index, slot);
    if index < MAX_IMPORTS && first < U32 && IsSet(world, first) {
      ThunkSlotsIff(world, table, index + 1, slot);
    }
  }

  lemma ThunksGoOn(world: World, table: nat, index: nat, slot: nat)
    ensures InThunks(world, table, index, slot) <==>
      var first := table + Span(world.wide, index);
      index < 65536 && first < 0x1_0000_0000 && IsSet(world, first) && (slot == first || InThunks(world, table, index + 1, slot))
  {
    hide IsSet;
    var first := table + Span(world.wide, index);
    if InThunks(world, table, index, slot) {
      var k: nat :| IsThunk(world, table, index, k) && slot == table + Span(world.wide, k);
      assert IsSet(world, table + Span(world.wide, index));
      if k > index {
        assert IsThunk(world, table, index + 1, k);
      }
    }
    if index < 65536 && first < 0x1_0000_0000 && IsSet(world, first) && (slot == first || InThunks(world, table, index + 1, slot)) {
      ThunksBegin(world, table, index, slot);
    }
  }

  lemma ThunksBegin(world: World, table: nat, index: nat, slot: nat)
    requires index < 65536 && table + Span(world.wide, index) < 0x1_0000_0000 && IsSet(world, table + Span(world.wide, index))
    requires slot == table + Span(world.wide, index) || InThunks(world, table, index + 1, slot)
    ensures InThunks(world, table, index, slot)
  {
    hide IsSet;
    if slot == table + Span(world.wide, index) {
      assert IsThunk(world, table, index, index);
    } else {
      var k: nat :| IsThunk(world, table, index + 1, k) && slot == table + Span(world.wide, k);
      assert IsThunk(world, table, index, k);
    }
  }

  lemma {:induction false} KeptSlotsIff(world: World, existing: seq<byte>, slot: nat)
    ensures slot in KeptSlots(world.memory, existing, world.wide) <==> InKept(world, existing, slot)
    decreases |existing|
  {
    hide InThunks, ThunkSlots, U32At, InKept;
    KeptGoesOn(world, existing, slot);
    if |existing| >= DESCRIPTOR_SIZE {
      ThunkSlotsIff(world, U32At(existing, FIRST_THUNK_OFFSET), 0, slot);
      KeptSlotsIff(world, existing[DESCRIPTOR_SIZE..], slot);
    }
  }

  lemma KeptGoesOn(world: World, existing: seq<byte>, slot: nat)
    ensures InKept(world, existing, slot) <==>
      |existing| >= 20 && (InThunks(world, U32At(existing, 16), 0, slot) || InKept(world, existing[20..], slot))
  {
    hide InThunks, U32At;
    if |existing| >= 20 {
      var rest := existing[20..];
      assert existing[20 * 0..] == existing;
      assert InThunks(world, U32At(existing, 16), 0, slot) <==> Names(world, existing, 0, slot);
      forall d: nat | 20 * d + 40 <= |existing|
        ensures rest[20 * d..] == existing[20 * (d + 1)..]
      {
      }
      if InKept(world, rest, slot) {
        var d: nat :| Names(world, rest, d, slot);
        assert Names(world, existing, d + 1, slot);
      }
      if InKept(world, existing, slot) {
        var d: nat :| Names(world, existing, d, slot);
        if d > 0 {
          assert rest[20 * (d - 1)..] == existing[20 * d..];
          assert Names(world, rest, d - 1, slot);
        }
      }
    }
  }

  /** The plan's groups, the kept descriptors, the image's guards or the unbound delayed tables have the slot. */
  ghost predicate HasOwner(world: World, plan: Plan, existing: seq<byte>, unbound: set<nat>, slot: nat) {
    Owned(plan.groups, world.wide, slot) || InKept(world, existing, slot) || slot in world.guards || slot in unbound
  }

  lemma {:induction false} RecoveredAreOwned(groups: seq<Group>, wide: bool, slot: nat)
    requires slot in RecoveredSlots(groups, wide)
    ensures Owned(groups, wide, slot)
  {
    hide Owns;
    var last := groups[|groups| - 1];
    if slot in GroupSlots(last, wide, |last.entries|) {
      ListedIsOwned(last, wide, |last.entries|, slot);
    } else {
      RecoveredAreOwned(groups[..|groups| - 1], wide, slot);
      var g :| g in groups[..|groups| - 1] && Owns(g, wide, slot);
      assert g in groups;
    }
  }

  lemma {:induction false} ListedIsOwned(group: Group, wide: bool, count: nat, slot: nat)
    requires count <= |group.entries| && slot in GroupSlots(group, wide, count)
    ensures Owns(group, wide, slot)
  {
    if slot == group.firstThunk + Span(wide, count - 1) {
      assert count - 1 < |group.entries|;
    } else {
      ListedIsOwned(group, wide, count - 1, slot);
    }
  }

  lemma TakenIff(world: World, plan: Plan, existing: seq<byte>, unbound: set<nat>, slot: nat)
    requires slot < U32
    ensures slot in TakenSlots(world, plan, existing, unbound) <==> HasOwner(world, plan, existing, unbound, slot)
  {
    hide InKept, KeptSlots, RecoveredSlots, Owned;
    KeptSlotsIff(world, existing, slot);
    if slot in RecoveredSlots(plan.groups, world.wide) {
      RecoveredAreOwned(plan.groups, world.wide, slot);
    }
    if Owned(plan.groups, world.wide, slot) {
      OwnedAreRecovered(plan.groups, world.wide, slot);
    }
  }

  // ----- what is worth adding

  /** A slot beside this one, on either side, whose pointer leads to an export of this module. */
  ghost predicate Accompanied(world: World, slot: nat, moduleName: Text) {
    exists n: nat ::
      && (n + (if world.wide then 8 else 4) == slot || (n == slot + (if world.wide then 8 else 4) && n < 0x1_0000_0000))
      && PointsInto(world, n, moduleName)
  }

  /** The slot's pointer leads to an export of this module, whether or not it is the only one. */
  ghost predicate PointsInto(world: World, slot: nat, moduleName: Text) {
    var value := ReadPointer(world.memory, slot, world.wide);
    value.Some? && world.resolve(value.value).Resolved? && SameLetters(world.resolve(value.value).symbol.moduleName, moduleName)
  }

  /** All ASCII, and without a name the ordinal has sixteen bits. */
  ghost predicate Importable(symbol: Symbol) {
    && (forall letter :: letter in symbol.moduleName ==> letter < 0x80)
    && (symbol.name.None? ==> symbol.ordinal <= 0xFFFF)
    && (symbol.name.Some? ==> forall letter :: letter in symbol.name.value ==> letter < 0x80)
  }

  lemma ImportableIff(symbol: Symbol)
    ensures Representable(symbol) <==> Importable(symbol)
  {
    AsciiIff(symbol.moduleName);
    if symbol.name.Some? {
      AsciiIff(symbol.name.value);
    }
  }

  lemma AsciiIff(text: Text)
    ensures AllAscii(text) <==> forall letter :: letter in text ==> letter < 0x80
  {
    if forall letter :: letter in text ==> letter < 0x80 {
      assert forall i :: 0 <= i < |text| ==> text[i] in text;
    }
  }

  lemma AccompaniedIff(world: World, slot: nat, moduleName: Text)
    ensures NeighborShares(world, slot, moduleName) <==> Accompanied(world, slot, moduleName)
  {
    hide ReadPointer, SameLetters;
    var width := Width(world.wide);
    if slot >= width && LeadsTo(world, slot - width, moduleName) {
      assert PointsInto(world, slot - width, moduleName);
    }
    if slot + width < U32 && LeadsTo(world, slot + width, moduleName) {
      assert PointsInto(world, slot + width, moduleName);
    }
  }

  /** A pointer in data to one export that can be imported, which code calls, or loads beside another of its module. */
  ghost predicate Worthy(world: World, call: Call) {
    var value := ReadPointer(world.memory, call.slot, world.wide);
    && world.inData(call.slot) && value.Some?
    && var found := world.resolve(value.value);
    && found.Resolved? && !found.ambiguous && Importable(found.symbol) && !IsOwn(world, found.symbol)
    && (call.reference == Called || Accompanied(world, call.slot, found.symbol.moduleName))
  }

  lemma LookIff(world: World, call: Call, taken: set<nat>)
    ensures var look := Look(world, call, taken);
      && (look.Found? && Kept(world, look.candidate) <==> call.slot !in taken && Worthy(world, call))
      && (look.Found? ==> look.candidate.slot == call.slot)
  {
    hide ReadPointer, Representable, Importable, IsOwn, NeighborShares, Accompanied;
    var value := ReadPointer(world.memory, call.slot, world.wide);
    if value.Some? && world.resolve(value.value).Resolved? {
      AccompaniedIff(world, call.slot, world.resolve(value.value).symbol.moduleName);
      ImportableIff(world.resolve(value.value).symbol);
    }
  }

  /** Every candidate gathered is one that a call was found to lead to. */
  lemma {:induction false} GatherOnly(world: World, calls: seq<Call>, taken: set<nat>, limit: nat, so: Gathered)
    ensures var found := Gather(world, calls, taken, limit, so).candidates;
      forall c :: c in found ==> c in so.candidates || exists call :: call in calls && Look(world, call, taken) == Found(c)
    decreases |calls|
  {
    hide Look;
    if calls != [] {
      var call, rest := calls[0], calls[1..];
      assert calls == [call] + rest;
      var next := if |so.candidates| >= limit then so
        else match Look(world, call, taken)
          case Skip => so
          case Ambiguous => so.(ambiguous := so.ambiguous + {call.slot})
          case Found(c) => so.(candidates := so.candidates + [c]);
      GatherOnly(world, rest, taken, limit, next);
      forall c | c in Gather(world, calls, taken, limit, so).candidates
        ensures c in so.candidates || exists x :: x in calls && Look(world, x, taken) == Found(c)
      {
        if c !in so.candidates && c !in next.candidates {
          var x :| x in rest && Look(world, x, taken) == Found(c);
          assert x in calls;
        }
      }
    }
  }

  /** A slot of an added group is a call's, and was found and kept. */
  lemma AddedWasFound(world: World, plan: Plan, existing: seq<byte>, unbound: set<nat>, slot: nat)
    requires Ascending(world.calls) && forall c :: c in world.calls ==> c.slot < U32
    requires Bounded(plan.groups) && AllSound(world, plan.groups)
    requires Owned(Recover(world, plan, existing, unbound).groups, world.wide, slot) && !Owned(plan.groups, world.wide, slot)
    ensures exists call :: call in world.calls && call.slot == slot
              && call.slot !in TakenSlots(world, plan, existing, unbound) && Worthy(world, call)
  {
    hide Append, Apart, Owns, Gather, AllSoundCandidates, InOrder, TakenSlots, IsCalled, From, Settled, AllSound, Look, Worthy, Kept;
    var groups := Recover(world, plan, existing, unbound).groups;
    var g :| g in groups && Owns(g, world.wide, slot);
    assert Total(plan.groups) < MAX_IMPORTS && |plan.groups| < MAX_GROUPS;
    var taken := TakenSlots(world, plan, existing, unbound);
    var limit := MAX_IMPORTS - Total(plan.groups);
    var found := Gather(world, world.calls, taken, limit, Gathered([], plan.ambiguous));
    NoCandidates(world);
    GatherFinds(world, world.calls, taken, limit, Gathered([], plan.ambiguous), world.calls);
    GatherOnly(world, world.calls, taken, limit, Gathered([], plan.ambiguous));
    NothingSettled(world.wide, found.candidates);
    assert plan.groups == plan.groups + [];
    AppendApart(world, plan.(ambiguous := found.ambiguous), plan.groups, [], None, found.candidates, found.candidates, 1, Inferred);
    assert groups == plan.groups + groups[|plan.groups|..];
    assert g in groups[|plan.groups|..];
    var c := CandidateOf(g, world.wide, found.candidates, slot);
    var call :| call in world.calls && Look(world, call, taken) == Found(c);
    RecoverKeeps(world, plan, existing, unbound);
    OwnedIsKept(world, groups, g, slot, c, found.candidates);
    LookIff(world, call, taken);
  }

  lemma OwnedIsKept(world: World, groups: seq<Group>, group: Group, slot: nat, c: Candidate, all: seq<Candidate>)
    requires AllSound(world, groups) && group in groups && Owns(group, world.wide, slot)
    requires AllSoundCandidates(world, all) && c in all && c.slot == slot
    ensures Kept(world, c)
  {
    hide ReadPointer, Representable, IsOwn;
    assert Sound(world, group) && SoundCandidate(world, c);
    var i: nat :| i < |group.entries| && slot == group.firstThunk + Span(world.wide, i);
    assert Rests(world, group, i);
  }

  /**
    * Where there is room, recovery adds exactly the slots that nothing has yet and that are worth it:
    * afterwards a slot code refers to is in a group if and only if it was in one, or is such a slot.
    */
  lemma RecoveredIff(world: World, plan: Plan, existing: seq<byte>, unbound: set<nat>, call: Call)
    requires Ascending(world.calls) && (forall c :: c in world.calls ==> c.slot < U32) && call in world.calls
    requires Bounded(plan.groups) && AllSound(world, plan.groups)
    requires Total(plan.groups) + |world.calls| < MAX_IMPORTS && |plan.groups| + |world.calls| < MAX_GROUPS
    ensures Owned(Recover(world, plan, existing, unbound).groups, world.wide, call.slot) <==>
      || Owned(plan.groups, world.wide, call.slot)
      || (!HasOwner(world, plan, existing, unbound, call.slot) && Worthy(world, call))
  {
    hide Recover, Owns, TakenSlots, Worthy, Look, AllSound, HasOwner, Kept;
    var groups, taken := Recover(world, plan, existing, unbound).groups, TakenSlots(world, plan, existing, unbound);
    TakenIff(world, plan, existing, unbound, call.slot);
    LookIff(world, call, taken);
    RecoverTakesAll(world, plan, existing, unbound);
    RecoverAddsNewSlots(world, plan, existing, unbound);
    if Owned(plan.groups, world.wide, call.slot) {
      var g :| g in plan.groups && Owns(g, world.wide, call.slot);
      assert g in groups;
    } else if Owned(groups, world.wide, call.slot) {
      AddedWasFound(world, plan, existing, unbound, call.slot);
      var other :| other in world.calls && other.slot == call.slot && other.slot !in taken && Worthy(world, other);
      assert other == call;
    } else if !HasOwner(world, plan, existing, unbound, call.slot) && Worthy(world, call) {
      assert false;
    }
  }

  // ----- the counter of slots with call sites

  /** Entry `at.1` of group `at.0` is attested, scanned or told by a packer, and code refers to its slot. */
  ghost predicate IsSite(world: World, groups: seq<Group>, at: (nat, nat)) {
    && at.0 < |groups| && at.1 < |groups[at.0].entries| && groups[at.0].source in {Attested, Scanned, Packer}
    && var slot := groups[at.0].firstThunk + Span(world.wide, at.1);
    slot < 0x1_0000_0000 && IsCalled(world.calls, slot)
  }

  ghost function Sites(world: World, groups: seq<Group>): set<(nat, nat)> {
    set i: nat, k: nat | i < |groups| && k < |groups[i].entries| && IsSite(world, groups, (i, k)) :: (i, k)
  }

  ghost function SitesOf(world: World, groups: seq<Group>, i: nat, count: nat): set<(nat, nat)>
    requires i < |groups| && count <= |groups[i].entries|
  {
    set k: nat | k < count && IsSite(world, groups, (i, k)) :: (i, k)
  }

  lemma {:induction false} CalledAreSites(world: World, groups: seq<Group>, i: nat, count: nat)
    requires i < |groups| && count <= |groups[i].entries|
    ensures |SitesOf(world, groups, i, count)| == if CarriesEvidence(groups[i].source) then CalledSlots(world, groups[i], count) else 0
    decreases count
  {
    hide IsCalled;
    if count == 0 {
      assert SitesOf(world, groups, i, count) == {};
    } else {
      CalledAreSites(world, groups, i, count - 1);
      var before := SitesOf(world, groups, i, count - 1);
      var pair: (nat, nat) := (i, count - 1);
      var one: set<(nat, nat)> := if IsSite(world, groups, pair) then {pair} else {};
      assert SitesOf(world, groups, i, count) == before + one;
      assert pair !in before;
    }
  }

  lemma SameSite(world: World, groups: seq<Group>, i: nat, k: nat)
    requires i < |groups| - 1
    ensures IsSite(world, groups, (i, k)) <==> IsSite(world, groups[..|groups| - 1], (i, k))
  {
    hide IsCalled;
  }

  lemma SitesGoOn(world: World, groups: seq<Group>)
    requires groups != []
    ensures var before, last := groups[..|groups| - 1], |groups| - 1;
      var earlier, added := Sites(world, before), SitesOf(world, groups, last, |groups[last].entries|);
      Sites(world, groups) == earlier + added && earlier !! added
  {
    hide IsSite;
    var before, last := groups[..|groups| - 1], |groups| - 1;
    forall i: nat, k: nat | i < last
      ensures IsSite(world, groups, (i, k)) <==> IsSite(world, before, (i, k))
    {
      SameSite(world, groups, i, k);
    }
    assert Sites(world, groups) == Sites(world, before) + SitesOf(world, groups, last, |groups[last].entries|);
  }

  /** The counter is the number of these entries. */
  lemma {:induction false} CallSitesAre(world: World, groups: seq<Group>)
    ensures CallSites(world, groups) == |Sites(world, groups)|
    decreases |groups|
  {
    hide IsSite, SitesOf, CalledSlots;
    if groups == [] {
      assert Sites(world, groups) == {};
    } else {
      hide Sites;
      var last := |groups| - 1;
      CallSitesAre(world, groups[..last]);
      CalledAreSites(world, groups, last, |groups[last].entries|);
      SitesGoOn(world, groups);
    }
  }
}
