/** The import plan as scans update it, with its counters kept in step with its groups. */
module ImportPlanner {
  import opened Wrappers
  import opened Bytes
  import opened ImportPlan

  class Planner {
    var groups: seq<Group>
    var recovered: nat
    var recoveredAttested: nat
    var recoveredScanned: nat
    var recoveredDelayed: nat
    var recoveredInferred: nat
    var recoveredPacker: nat
    var aliasedNames: nat
    var slotsWithCallSites: nat
    var ambiguousSlots: set<nat>
    var unrepresentable: nat
    var mixedModuleRuns: nat
    var existing: seq<byte>
    var unboundDelaySlots: set<nat>

    function Contents(): Plan
      reads this
    {
      Plan(groups, ambiguousSlots, unrepresentable, mixedModuleRuns)
    }

    /** Every counter is the sum it stands for, and the limits hold. */
    ghost predicate Valid(world: World)
      reads this
    {
      Counted() && aliasedNames == AliasedTotal(groups) && slotsWithCallSites == CallSites(world, groups)
    }

    ghost predicate Counted()
      reads this
    {
      && Bounded(groups) && recovered == Total(groups)
      && recovered == recoveredAttested + recoveredScanned + recoveredDelayed + recoveredInferred + recoveredPacker
      && recoveredAttested == TierTotal(groups, Attested) && recoveredScanned == TierTotal(groups, Scanned)
      && recoveredDelayed == TierTotal(groups, Delayed) && recoveredInferred == TierTotal(groups, Inferred)
      && recoveredPacker == TierTotal(groups, Packer)
    }

    constructor (world: World)
      ensures Valid(world) && Contents() == Plan([], {}, 0, 0) && existing == [] && unboundDelaySlots == {}
    {
      groups, recovered := [], 0;
      recoveredAttested, recoveredScanned, recoveredDelayed, recoveredInferred, recoveredPacker := 0, 0, 0, 0, 0;
      aliasedNames, slotsWithCallSites, ambiguousSlots, unrepresentable, mixedModuleRuns := 0, 0, {}, 0, 0;
      existing, unboundDelaySlots := [], {};
    }

    method RecordTier(source: Source, entries: nat)
      modifies this`recoveredAttested, this`recoveredScanned, this`recoveredDelayed, this`recoveredInferred, this`recoveredPacker
      ensures recoveredAttested == old(recoveredAttested) + (if source == Attested then entries else 0)
      ensures recoveredScanned == old(recoveredScanned) + (if source == Scanned then entries else 0)
      ensures recoveredDelayed == old(recoveredDelayed) + (if source == Delayed then entries else 0)
      ensures recoveredInferred == old(recoveredInferred) + (if source == Inferred then entries else 0)
      ensures recoveredPacker == old(recoveredPacker) + (if source == Packer then entries else 0)
    {
      match source
      case Attested => recoveredAttested := recoveredAttested + entries;
      case Scanned => recoveredScanned := recoveredScanned + entries;
      case Delayed => recoveredDelayed := recoveredDelayed + entries;
      case Inferred => recoveredInferred := recoveredInferred + entries;
      case Packer => recoveredPacker := recoveredPacker + entries;
    }

    method CountReferencedSlots(world: World, group: Group) returns (count: nat)
      ensures count == CalledSlots(world, group, |group.entries|)
    {
      count := 0;
      for i := 0 to |group.entries|
        invariant count == CalledSlots(world, group, i)
      {
        var slot := group.firstThunk + Span(world.wide, i);
        if slot < U32 && exists c :: c in world.calls && c.slot == slot {
          count := count + 1;
        }
      }
    }

    method PushGroup(group: Group, minimum: nat) returns (pushed: bool)
      requires Counted()
      modifies this`groups, this`recovered, this`recoveredAttested, this`recoveredScanned, this`recoveredDelayed,
        this`recoveredInferred, this`recoveredPacker
      ensures Counted() && pushed == Accepts(old(groups), group, minimum)
      ensures groups == if pushed then old(groups) + [group] else old(groups)
    {
      hide Total, TierTotal;
      if |group.entries| < minimum || recovered + |group.entries| > MAX_IMPORTS || |groups| >= MAX_GROUPS {
        return false;
      }
      OneMoreGroup(groups, group);
      RecordTier(group.source, |group.entries|);
      recovered := recovered + |group.entries|;
      groups := groups + [group];
      return true;
    }

    method CommitGroup(world: World, group: Group, minimum: nat)
      requires Valid(world)
      modifies this
      ensures Valid(world) && Contents() == Pushed(old(Contents()), group, minimum)
      ensures existing == old(existing) && unboundDelaySlots == old(unboundDelaySlots)
    {
      hide Total, TierTotal, AliasedTotal, CallSites, CalledSlots, AliasedEntries;
      var agreeing := CountReferencedSlots(world, group);
      OneMoreCommitted(world, groups, group);
      var pushed := PushGroup(group, minimum);
      if !pushed {
        return;
      }
      aliasedNames := aliasedNames + AliasedEntries(group.entries);
      if CarriesEvidence(group.source) {
        slotsWithCallSites := slotsWithCallSites + agreeing;
      }
    }

    method AppendGroups(world: World, candidates: seq<Candidate>, minimum: nat, source: Source)
      requires Valid(world)
      modifies this
      ensures Valid(world) && Contents() == Append(world, old(Contents()), None, candidates, minimum, source)
      ensures existing == old(existing) && unboundDelaySlots == old(unboundDelaySlots)
    {
      hide Pushed, Representable, IsOwn, Bounded, Total, TierTotal, AliasedTotal, CallSites;
      var current: Option<Group> := None;
      ghost var start := Contents();
      for i := 0 to |candidates|
        invariant Valid(world) && existing == old(existing) && unboundDelaySlots == old(unboundDelaySlots)
        invariant Append(world, start, None, candidates, minimum, source)
               == Append(world, Contents(), current, candidates[i..], minimum, source)
      {
        var c := candidates[i];
        assert candidates[i..][0] == c && candidates[i..][1..] == candidates[i + 1..];
        if IsOwn(world, c.symbol) {
          continue;
        }
        if !Representable(c.symbol) {
          unrepresentable := unrepresentable + 1;
          continue;
        }
        var sameModule := current.Some? && GoesOn(world, current.value, c);
        if !sameModule {
          if current.Some? {
            CommitGroup(world, current.value, minimum);
          }
          current := Some(Group(c.symbol.moduleName, c.slot, [], source));
          assert [] + [EntryOf(c)] == [EntryOf(c)];
        }
        current := Some(current.value.(entries := current.value.entries + [EntryOf(c)]));
      }
      if current.Some? {
        CommitGroup(world, current.value, minimum);
      }
    }

    method FindRun(world: World, start: nat, end: nat) returns (entries: seq<Candidate>, offset: nat)
      modifies this`ambiguousSlots
      ensures RunOf(entries, offset, Run(world, start, end, []).ambiguous) == Run(world, start, end, [])
      ensures Contents() == Noted(old(Contents()), Run(world, start, end, []).ambiguous)
    {
      hide ReadPointer;
      entries, offset := [], start;
      while offset + Width(world.wide) <= end && |entries| < MAX_IMPORTS
        invariant ambiguousSlots == old(ambiguousSlots)
        invariant Run(world, start, end, []) == Run(world, offset, end, entries)
      {
        var value := ReadPointer(world.memory, offset, world.wide);
        if value.None? || offset >= U32 {
          break;
        }
        var found := world.resolve(value.value);
        if found.Unresolved? {
          break;
        }
        if found.ambiguous {
          ambiguousSlots := ambiguousSlots + {offset};
          break;
        }
        entries := entries + [Candidate(offset, found.symbol, found.aliased)];
        offset := offset + Width(world.wide);
      }
    }

    method ScanImportRange(world: World, scan: Scan)
      requires Valid(world)
      modifies this
      ensures Valid(world) && Contents() == ScanRange(world, scan, old(Contents()))
      ensures existing == old(existing) && unboundDelaySlots == old(unboundDelaySlots)
    {
      hide Run, Append, Mixed, Clean, Bounded, Total, TierTotal, AliasedTotal, CallSites;
      var aligned := Aligned(scan.start, world.wide);
      var offset := aligned;
      ghost var start := Contents();
      while offset + Width(world.wide) <= scan.end && recovered < MAX_IMPORTS
        invariant Valid(world) && existing == old(existing) && unboundDelaySlots == old(unboundDelaySlots)
        invariant ScanFrom(world, scan, aligned, aligned, start) == ScanFrom(world, scan, aligned, offset, Contents())
        decreases if offset < scan.end then scan.end - offset else 0
      {
        ghost var before := Contents();
        var entries, reached := FindRun(world, offset, scan.end);
        NextIsLater(world, offset, scan.end);
        if |entries| >= scan.minimum && Clean(world, aligned, offset, reached, scan.end) {
          var mixed := exists c, d :: c in entries && d in entries && !SameLetters(c.symbol.moduleName, d.symbol.moduleName);
          assert mixed == Mixed(entries) by { MixedIff(entries); }
          if mixed {
            mixedModuleRuns := mixedModuleRuns + 1;
          }
          AppendGroups(world, entries, scan.minimum, scan.source);
        }
        assert Contents() == ScanOne(world, scan, aligned, offset, before);
        offset := if reached == offset then offset + Width(world.wide) else reached;
      }
    }

    method RecoverReferencedImports(world: World)
      requires Valid(world)
      modifies this
      ensures Valid(world) && Contents() == Recover(world, old(Contents()), existing, unboundDelaySlots)
      ensures existing == old(existing) && unboundDelaySlots == old(unboundDelaySlots)
    {
      hide ReadPointer, NeighborShares, KeptSlots, RecoveredSlots, Append, Bounded, Total, TierTotal, AliasedTotal, CallSites;
      if recovered >= MAX_IMPORTS || |groups| >= MAX_GROUPS {
        return;
      }
      var taken := RecoveredSlots(groups, world.wide) + KeptSlots(world.memory, existing, world.wide) + world.guards
                   + unboundDelaySlots;
      var remaining := MAX_IMPORTS - recovered;
      var entries: seq<Candidate> := [];
      ghost var plan := Contents();
      assert world.calls[0..] == world.calls;
      for i := 0 to |world.calls|
        invariant Valid(world) && existing == old(existing) && unboundDelaySlots == old(unboundDelaySlots)
        invariant Contents() == plan.(ambiguous := ambiguousSlots)
        invariant Gather(world, world.calls, taken, remaining, Gathered([], plan.ambiguous))
               == Gather(world, world.calls[i..], taken, remaining, Gathered(entries, ambiguousSlots))
      {
        var call := world.calls[i];
        assert world.calls[i..][0] == call && world.calls[i..][1..] == world.calls[i + 1..];
        if call.slot in taken || |entries| >= remaining || !world.inData(call.slot) {
          continue;
        }
        var value := ReadPointer(world.memory, call.slot, world.wide);
        if value.None? {
          continue;
        }
        var found := world.resolve(value.value);
        if found.Unresolved? {
          continue;
        }
        if found.ambiguous {
          ambiguousSlots := ambiguousSlots + {call.slot};
          continue;
        }
        if call.reference == Loaded && !NeighborShares(world, call.slot, found.symbol.moduleName) {
          continue;
        }
        entries := entries + [Candidate(call.slot, found.symbol, found.aliased)];
      }
      AppendGroups(world, entries, 1, Inferred);
    }
  }

  lemma MixedIff(candidates: seq<Candidate>)
    ensures Mixed(candidates) <==>
      exists c, d :: c in candidates && d in candidates && !SameLetters(c.symbol.moduleName, d.symbol.moduleName)
  {
  }

  ghost predicate TierGrows(groups: seq<Group>, group: Group, source: Source) {
    TierTotal(groups + [group], source) == TierTotal(groups, source) + (if group.source == source then |group.entries| else 0)
  }

  lemma OneMoreGroup(groups: seq<Group>, group: Group)
    ensures Total(groups + [group]) == Total(groups) + |group.entries|
    ensures TierGrows(groups, group, Attested) && TierGrows(groups, group, Scanned) && TierGrows(groups, group, Delayed)
    ensures TierGrows(groups, group, Inferred) && TierGrows(groups, group, Packer)
  {
    assert (groups + [group])[..|groups|] == groups;
  }

  lemma OneMoreCommitted(world: World, groups: seq<Group>, group: Group)
    ensures AliasedTotal(groups + [group]) == AliasedTotal(groups) + AliasedEntries(group.entries)
    ensures CallSites(world, groups + [group])
         == CallSites(world, groups) + (if CarriesEvidence(group.source) then CalledSlots(world, group, |group.entries|) else 0)
  {
    assert (groups + [group])[..|groups|] == groups;
  }
}
