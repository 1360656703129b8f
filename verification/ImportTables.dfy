/**
  * What the reader of import tables makes of any image: it lists the modules that stand there, and only
  * those. A descriptor without a lookup table has its names in the address table itself.
  */
module ImportTables {
  import opened Wrappers
  import opened Bytes
  import opened Texts
  import opened Imports

  // ----- functions

  /** The highest bit of a thunk marks an ordinal, its lowest sixteen; else it leads to a hint of two bytes and the name. */
  ghost predicate IsThunk(image: seq<byte>, at: nat, f: Function, wide: bool) {
    var thunk := ReadThunk(image, at, wide);
    && thunk.Some? && thunk.value != 0
    && var ordinal := thunk.value >= if wide then 0x8000_0000_0000_0000 else 0x8000_0000;
    match f
    case Ordinal(n) => ordinal && n == thunk.value % 0x1_0000
    case Name(text) => !ordinal && ReadText(image, thunk.value + 2) == Some(text)
  }

  /** One thunk for each function, and an empty one behind them unless there is no slot for it. */
  ghost predicate FunctionsStand(image: seq<byte>, at: nat, functions: seq<Function>, slots: nat, wide: bool) {
    && |functions| <= slots
    && (forall k :: 0 <= k < |functions| ==> IsThunk(image, ThunkAt(at, k, wide), functions[k], wide))
    && (|functions| < slots ==> ReadThunk(image, ThunkAt(at, |functions|, wide), wide) == Some(0))
  }

  function ThunkAt(at: nat, k: nat, wide: bool): nat {
    at + if wide then 8 * k else 4 * k
  }

  lemma {:induction false} FunctionsIff(image: seq<byte>, at: nat, functions: seq<Function>, slots: nat, wide: bool)
    ensures ReadFunctions(image, at, slots, wide) == Some(functions) <==> FunctionsStand(image, at, functions, slots, wide)
    decreases slots
  {
    hide ReadThunk, ReadText, FunctionsStand, IsThunk;
    FirstFunction(image, at, functions, slots, wide);
    if slots > 0 && functions != [] {
      FunctionIff(image, at, functions[0], wide);
      FunctionsIff(image, at + ThunkWidth(wide), functions[1..], slots - 1, wide);
      assert functions == [functions[0]] + functions[1..];
    }
  }

  lemma FunctionIff(image: seq<byte>, at: nat, f: Function, wide: bool)
    ensures var thunk := ReadThunk(image, at, wide);
      IsThunk(image, at, f, wide) <==> thunk.Some? && thunk.value != 0 && ReadFunction(image, thunk.value, wide) == Some(f)
  {
    hide ReadThunk, ReadText;
  }

  lemma FirstFunction(image: seq<byte>, at: nat, functions: seq<Function>, slots: nat, wide: bool)
    ensures FunctionsStand(image, at, functions, slots, wide) <==>
      if functions == [] then slots == 0 || ReadThunk(image, at, wide) == Some(0)
      else slots > 0 && IsThunk(image, at, functions[0], wide)
           && FunctionsStand(image, at + ThunkWidth(wide), functions[1..], slots - 1, wide)
  {
    hide ReadThunk, IsThunk;
    if functions != [] && slots > 0 {
      var next := at + ThunkWidth(wide);
      assert ThunkAt(at, 0, wide) == at;
      forall k: nat
        ensures ThunkAt(next, k, wide) == ThunkAt(at, k + 1, wide)
      {
      }
      if FunctionsStand(image, next, functions[1..], slots - 1, wide) && IsThunk(image, at, functions[0], wide) {
        forall k | 0 <= k < |functions|
          ensures IsThunk(image, ThunkAt(at, k, wide), functions[k], wide)
        {
          if k > 0 {
            assert IsThunk(image, ThunkAt(next, k - 1, wide), functions[1..][k - 1], wide);
          }
        }
      }
      if FunctionsStand(image, at, functions, slots, wide) {
        assert IsThunk(image, ThunkAt(at, 0, wide), functions[0], wide);
        forall k | 0 <= k < |functions[1..]|
          ensures IsThunk(image, ThunkAt(next, k, wide), functions[1..][k], wide)
        {
          assert IsThunk(image, ThunkAt(at, k + 1, wide), functions[k + 1], wide);
        }
      }
    }
  }

  // ----- modules

  /** The module's name and address table, and its functions in the lookup table, or without one in the address table. */
  ghost predicate IsDescriptor(image: seq<byte>, at: nat, m: Module, wide: bool) {
    var lookup, name := ReadU32(image, at), ReadU32(image, at + 12);
    && lookup.Some? && name.Some? && ReadU32(image, at + 16) == Some(m.firstThunk)
    && (name.value != 0 || m.firstThunk != 0) && ReadText(image, name.value) == Some(m.name)
    && (lookup.value == 0 ==> FunctionsStand(image, m.firstThunk, m.functions, 65536, wide))
    && (lookup.value != 0 ==> FunctionsStand(image, lookup.value, m.functions, 65536, wide))
  }

  /** A descriptor without a name and an address table is the last. */
  ghost predicate IsEnd(image: seq<byte>, at: nat) {
    ReadU32(image, at).Some? && ReadU32(image, at + 12) == Some(0) && ReadU32(image, at + 16) == Some(0)
  }

  ghost predicate ModulesStand(image: seq<byte>, at: nat, modules: seq<Module>, most: nat, wide: bool) {
    && |modules| <= most
    && (forall i :: 0 <= i < |modules| ==> IsDescriptor(image, at + 20 * i, modules[i], wide))
    && (|modules| < most ==> IsEnd(image, at + 20 * |modules|))
  }

  lemma {:induction false} ReadModulesIff(image: seq<byte>, at: nat, modules: seq<Module>, most: nat, wide: bool)
    ensures ReadModules(image, at, most, wide) == Some(modules) <==> ModulesStand(image, at, modules, most, wide)
    decreases most
  {
    hide ReadU32, ReadText, ReadFunctions, FunctionsStand, ModulesStand, IsDescriptor;
    FirstModule(image, at, modules, most, wide);
    if most > 0 {
      if modules != [] {
        DescriptorIff(image, at, modules[0], wide);
        ReadModulesIff(image, at + DESCRIPTOR_SIZE, modules[1..], most - 1, wide);
        assert modules == [modules[0]] + modules[1..];
      }
    }
  }

  lemma DescriptorIff(image: seq<byte>, at: nat, m: Module, wide: bool)
    ensures IsDescriptor(image, at, m, wide) <==>
      var lookup, name, iat := ReadU32(image, at), ReadU32(image, at + NAME_OFFSET), ReadU32(image, at + IAT_OFFSET);
      && lookup.Some? && name.Some? && iat.Some? && !(name.value == 0 && iat.value == 0)
      && ReadText(image, name.value) == Some(m.name) && iat.value == m.firstThunk
      && ReadFunctions(image, if lookup.value == 0 then iat.value else lookup.value, MAX_THUNKS, wide) == Some(m.functions)
  {
    hide ReadU32, ReadText, ReadFunctions, FunctionsStand;
    if ReadU32(image, at).Some? {
      FunctionsIff(image, m.firstThunk, m.functions, MAX_THUNKS, wide);
      FunctionsIff(image, ReadU32(image, at).value, m.functions, MAX_THUNKS, wide);
    }
  }

  lemma FirstModule(image: seq<byte>, at: nat, modules: seq<Module>, most: nat, wide: bool)
    ensures ModulesStand(image, at, modules, most, wide) <==>
      if modules == [] then most == 0 || IsEnd(image, at)
      else most > 0 && IsDescriptor(image, at, modules[0], wide) && ModulesStand(image, at + 20, modules[1..], most - 1, wide)
  {
    hide IsDescriptor, IsEnd;
    if modules != [] && most > 0 {
      if ModulesStand(image, at + 20, modules[1..], most - 1, wide) && IsDescriptor(image, at, modules[0], wide) {
        forall i | 0 <= i < |modules|
          ensures IsDescriptor(image, at + 20 * i, modules[i], wide)
        {
          if i > 0 {
            assert IsDescriptor(image, at + 20 + 20 * (i - 1), modules[1..][i - 1], wide);
          }
        }
      }
      if ModulesStand(image, at, modules, most, wide) {
        assert IsDescriptor(image, at + 20 * 0, modules[0], wide);
        forall i | 0 <= i < |modules[1..]|
          ensures IsDescriptor(image, at + 20 + 20 * i, modules[1..][i], wide)
        {
          assert IsDescriptor(image, at + 20 * (i + 1), modules[i + 1], wide);
        }
      }
    }
  }

  /** In any image, exactly the modules that stand there are listed, at most 4096 of them. */
  lemma ListedIff(image: seq<byte>, at: nat, modules: seq<Module>, wide: bool)
    ensures ListedImports(image, at, wide) == Some(modules) <==> ModulesStand(image, at, modules, 4096, wide)
  {
    hide ReadModules, ModulesStand;
    ReadModulesIff(image, at, modules, MAX_DESCRIPTORS, wide);
  }

  /** A table whose lookup tables are gone lists the same modules if the address tables hold the same functions. */
  lemma LookupsCanGo(image: seq<byte>, at: nat, without: nat, modules: seq<Module>, wide: bool)
    requires ListedImports(image, at, wide) == Some(modules)
    requires forall i :: 0 <= i < |modules| ==>
      && ReadU32(image, without + 20 * i) == Some(0)
      && ReadU32(image, without + 20 * i + 12) == ReadU32(image, at + 20 * i + 12)
      && ReadU32(image, without + 20 * i + 16) == ReadU32(image, at + 20 * i + 16)
      && FunctionsStand(image, modules[i].firstThunk, modules[i].functions, 65536, wide)
    requires |modules| < 4096 ==> IsEnd(image, without + 20 * |modules|)
    ensures ListedImports(image, without, wide) == Some(modules)
  {
    hide ListedImports, ReadU32, ReadText, FunctionsStand, IsEnd;
    ListedIff(image, at, modules, wide);
    ListedIff(image, without, modules, wide);
    forall i | 0 <= i < |modules|
      ensures IsDescriptor(image, without + 20 * i, modules[i], wide)
    {
      assert IsDescriptor(image, at + 20 * i, modules[i], wide);
    }
  }

  // ----- what is written for the reader

  /** A lookup table stands at the first multiple of its thunks' width, and a descriptor has nothing between its fields. */
  lemma GroupIsAligned(rva: nat, at: nat, group: Group, wide: bool)
    ensures at <= LookupAt(at, wide) < at + (if wide then 8 else 4) && LookupAt(at, wide) % (if wide then 8 else 4) == 0
    ensures forall k :: 4 <= k < 12 ==> Descriptor(rva, at, group, wide)[k] == 0
  {
    hide U32Bytes, ModuleAt;
    var gap := LookupAt(at, wide) - at;
    if wide {
      NextEighth(at);
    } else {
      NextFourth(at);
    }
  }

  lemma NextEighth(at: nat)
    ensures (at + (8 - at % 8) % 8) % 8 == 0 && (8 - at % 8) % 8 < 8
  {
  }

  lemma NextFourth(at: nat)
    ensures (at + (4 - at % 4) % 4) % 4 == 0 && (4 - at % 4) % 4 < 4
  {
  }

  /** A name's hint is zero and stands on the first even offset. */
  lemma NameIsEven(rva: nat, at: nat, entry: Entry, wide: bool)
    requires entry.name.Some?
    ensures var hint, bytes := Thunk(rva, at, entry, wide) - rva, NameBytes(at, entry);
      && hint % 2 == 0 && at <= hint <= at + 1 && |bytes| == hint - at + 2 + |entry.name.value| + 1
      && bytes[hint - at] == 0 && bytes[hint - at + 1] == 0
  {
  }
}
