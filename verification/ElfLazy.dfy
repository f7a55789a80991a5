/** Lazy binding: from a procedure linkage table entry through the resolver to the called function,
    with and without caching the result in the global offset table. */
module ElfLazy {
  import opened Words
  import opened AddressSpace
  import opened ElfTypes
  import opened ElfLink
  import opened X64

  // ---------------------------------------------------------------- objects at run time

  function FunctionRelocations(dyn: DynamicData, base: Word): (r: seq<RuntimeRelocation>)
    ensures |r| == |dyn.funcRelocs|
  {
    seq(|dyn.funcRelocs|, i requires 0 <= i < |dyn.funcRelocs| =>
      var f := dyn.funcRelocs[i];
      RuntimeRelocation(Wrap(base + f.offset), f.kind, 0, Relocated(base, f.symbol.value), f.symbol.name))
  }

  method GetFunctionRelocations(dyn: DynamicData, base: Word) returns (rs: seq<RuntimeRelocation>)
    ensures rs == FunctionRelocations(dyn, base)
  {
    rs := [];
    for i := 0 to |dyn.funcRelocs|
      invariant rs == FunctionRelocations(dyn, base)[..i]
    {
      var f := dyn.funcRelocs[i];
      var value := if f.symbol.value == 0 then 0 else Wrap(base + f.symbol.value);
      rs := rs + [RuntimeRelocation(Wrap(base + f.offset), f.kind, 0, value, f.symbol.name)];
    }
  }

  // An object as its procedure linkage table sees it: where its identity and the resolver's address
  // lie, its function relocations, and for each the address of its own stub.
  datatype Plt = Plt(base: Word, identity: Word, resolver: Word, relocs: seq<RuntimeRelocation>, stubs: seq<Word>)

  // ---------------------------------------------------------------- the resolver

  /** The relocation the pushed words select. Every library at the offset is looked at and the last one
      decides; an index out of range makes the loader exit. None also for an offset of no object, where the original
      goes on with a pointer it has not set. */
  function SelectedFrom(libs: seq<Plt>, offset: Word, index: nat, k: nat, found: Option<RuntimeRelocation>)
    : Option<RuntimeRelocation>
    requires k <= |libs|
    decreases |libs| - k
  {
    if k == |libs| then found
    else if libs[k].base != offset then SelectedFrom(libs, offset, index, k + 1, found)
    else if index >= |libs[k].relocs| then None
    else SelectedFrom(libs, offset, index, k + 1, Some(libs[k].relocs[index]))
  }

  // For the executable an index out of range is read past the array, which has no meaning.
  function Selected(m: Memory, exe: Plt, libs: seq<Plt>, identity: Word, index: nat): Option<RuntimeRelocation> {
    if identity == 0 then None
    else if LoadWord(m, identity) == exe.base then
      if index < |exe.relocs| then Some(exe.relocs[index]) else None
    else SelectedFrom(libs, LoadWord(m, identity), index, 0, None)
  }

  /** The new memory and the address of the function; none when the loader exits. */
  function Resolved(
    m: Memory, exe: Plt, libs: seq<Plt>, symbols: seq<RuntimeSymbol>, caching: bool, identity: Word, index: nat)
    : Option<(Memory, Word)>
  {
    match Selected(m, exe, libs, identity, index)
    case None => None
    case Some(r) =>
      match FindSymbol(symbols, r.name, 0, 0)
      case None => None
      case Some(s) => Some((if caching then WriteBytes(m, r.offset, LeBytes(s.value, 8)) else m, s.value))
  }

  // ---------------------------------------------------------------- a call through the table

  datatype Call = Call(owner: nat, index: nat)

  function Object(exe: Plt, libs: seq<Plt>, k: nat): Plt
    requires k <= |libs|
  {
    if k == 0 then exe else libs[k - 1]
  }

  predicate IsCall(exe: Plt, libs: seq<Plt>, c: Call) {
    c.owner <= |libs| && c.index < |Object(exe, libs, c.owner).relocs| == |Object(exe, libs, c.owner).stubs|
  }

  /** Where one call arrives: the slot's word, unless that is the slot's own stub, which goes to the
      resolver with the object's identity and the relocation index. */
  function CallOnce(
    m: Memory, exe: Plt, libs: seq<Plt>, symbols: seq<RuntimeSymbol>, caching: bool, c: Call): Option<(Memory, Word)>
    requires IsCall(exe, libs, c)
  {
    var o := Object(exe, libs, c.owner);
    var w := LoadWord(m, o.relocs[c.index].offset);
    if w == o.stubs[c.index] then Resolved(m, exe, libs, symbols, caching, LoadWord(m, o.identity), c.index)
    else Some((m, w))
  }

  /** The callee addresses of a run; it ends early with a final None when the loader exits. */
  function Run(
    m: Memory, exe: Plt, libs: seq<Plt>, symbols: seq<RuntimeSymbol>, caching: bool, calls: seq<Call>)
    : seq<Option<Word>>
    requires forall c :: c in calls ==> IsCall(exe, libs, c)
    decreases |calls|
  {
    if calls == [] then []
    else
      match CallOnce(m, exe, libs, symbols, caching, calls[0])
      case None => [None]
      case Some((m1, w)) => [Some(w)] + Run(m1, exe, libs, symbols, caching, calls[1..])
  }

  // ---------------------------------------------------------------- the invariant

  /** The address a call should reach, from the symbol search alone. */
  function Expected(exe: Plt, libs: seq<Plt>, symbols: seq<RuntimeSymbol>, c: Call): Option<Word>
    requires IsCall(exe, libs, c)
  {
    match FindSymbol(symbols, Object(exe, libs, c.owner).relocs[c.index].name, 0, 0)
    case None => None
    case Some(s) => Some(s.value)
  }

  function Slot(exe: Plt, libs: seq<Plt>, c: Call): Word
    requires IsCall(exe, libs, c)
  {
    Object(exe, libs, c.owner).relocs[c.index].offset
  }

  /** Function slots are apart from each other and from the words that identify the objects; the objects
      have different offsets. */
  ghost predicate PltsApart(exe: Plt, libs: seq<Plt>, table: Word) {
    && (forall k, j :: 0 <= k < j <= |libs| ==> Object(exe, libs, k).base != Object(exe, libs, j).base)
    && (forall c, d :: IsCall(exe, libs, c) && IsCall(exe, libs, d) && c != d ==>
          Apart(Slot(exe, libs, c), 8, Slot(exe, libs, d), 8))
    && (forall c, k :: IsCall(exe, libs, c) && 0 <= k <= |libs| ==>
          SlotMisses(Slot(exe, libs, c), Object(exe, libs, k), table, k))
  }

  predicate SlotMisses(slot: Word, o: Plt, table: Word, k: nat) {
    Apart(slot, 8, o.identity, 8) && Apart(slot, 8, o.resolver, 8) && Apart(slot, 8, Cell(table, k), 8)
  }

  ghost predicate Identified(m: Memory, o: Plt, callback: Word, table: Word, k: nat) {
    && LoadWord(m, o.identity) == Cell(table, k) != 0
    && LoadWord(m, Cell(table, k)) == o.base
    && LoadWord(m, o.resolver) == callback
  }

  /** A slot holds its own stub or the resolved address. */
  ghost predicate SlotValid(m: Memory, exe: Plt, libs: seq<Plt>, symbols: seq<RuntimeSymbol>, c: Call)
    requires IsCall(exe, libs, c)
  {
    var w := LoadWord(m, Slot(exe, libs, c));
    w == Object(exe, libs, c.owner).stubs[c.index] || Some(w) == Expected(exe, libs, symbols, c)
  }

  ghost predicate Ready(
    m: Memory, exe: Plt, libs: seq<Plt>, symbols: seq<RuntimeSymbol>, callback: Word, table: Word)
  {
    && PltsApart(exe, libs, table)
    && (forall k :: 0 <= k <= |libs| ==> Identified(m, Object(exe, libs, k), callback, table, k))
    && (forall c :: IsCall(exe, libs, c) ==> SlotValid(m, exe, libs, symbols, c))
  }

  lemma ResolverWord(
    m: Memory, exe: Plt, libs: seq<Plt>, symbols: seq<RuntimeSymbol>, callback: Word, table: Word, k: nat)
    requires Ready(m, exe, libs, symbols, callback, table) && k <= |libs|
    ensures LoadWord(m, Object(exe, libs, k).resolver) == callback
  {
    assert Identified(m, Object(exe, libs, k), callback, table, k);
  }

  lemma LoadWordKept(m: Memory, a: int, data: seq<Byte>, b: int)
    requires Apart(a, |data|, b, 8)
    ensures LoadWord(WriteBytes(m, a, data), b) == LoadWord(m, b)
  {
    assert LoadBytes(WriteBytes(m, a, data), b, 8) == LoadBytes(m, b, 8);
  }

  /** The library loop finds the object's own relocation when offsets differ. */
  lemma {:induction false} LibrarySelected(libs: seq<Plt>, n: nat, index: nat, k: nat, found: Option<RuntimeRelocation>)
    requires k <= |libs| && n < |libs| && index < |libs[n].relocs|
    requires forall i, j :: 0 <= i < j < |libs| ==> libs[i].base != libs[j].base
    requires k > n ==> found == Some(libs[n].relocs[index])
    ensures SelectedFrom(libs, libs[n].base, index, k, found) == Some(libs[n].relocs[index])
    decreases |libs| - k
  {
    if k < |libs| {
      if k == n {
        LibrarySelected(libs, n, index, k + 1, Some(libs[n].relocs[index]));
      } else {
        assert libs[k].base != libs[n].base;
        LibrarySelected(libs, n, index, k + 1, found);
      }
    }
  }

  /** The words an object pushes select that object's own relocation, for the executable too. */
  lemma SelectsOwn(
    m: Memory, exe: Plt, libs: seq<Plt>, symbols: seq<RuntimeSymbol>, callback: Word, table: Word, c: Call)
    requires Ready(m, exe, libs, symbols, callback, table) && IsCall(exe, libs, c)
    ensures var o := Object(exe, libs, c.owner);
      Selected(m, exe, libs, LoadWord(m, o.identity), c.index) == Some(o.relocs[c.index])
  {
    var o := Object(exe, libs, c.owner);
    assert Identified(m, o, callback, table, c.owner);
    if c.owner > 0 {
      assert Object(exe, libs, 0).base != o.base;
      forall i, j | 0 <= i < j < |libs| ensures libs[i].base != libs[j].base {
        assert Object(exe, libs, i + 1).base != Object(exe, libs, j + 1).base;
      }
      LibrarySelected(libs, c.owner - 1, c.index, 0, None);
    }
  }

  /** The resolver of the Windows loader, for libntdll.so: it looks at no offset, and always caches. An index
      past the relocations is read past the array, which has no meaning. */
  function NtdllResolved(m: Memory, ntdll: Plt, symbols: seq<RuntimeSymbol>, identity: Word, index: nat)
    : Option<(Memory, Word)>
  {
    if identity == 0 || index >= |ntdll.relocs| then None
    else
      match FindSymbol(symbols, ntdll.relocs[index].name, 0, 0)
      case None => None
      case Some(s) => Some((WriteBytes(m, ntdll.relocs[index].offset, LeBytes(s.value, 8)), s.value))
  }

  /** It does what the Linux loader's resolver does for that one object with caching. */
  lemma NtdllAlone(
    m: Memory, ntdll: Plt, symbols: seq<RuntimeSymbol>, callback: Word, table: Word, index: nat)
    requires Ready(m, ntdll, [], symbols, callback, table) && index < |ntdll.relocs| == |ntdll.stubs|
    ensures LoadWord(m, ntdll.identity) != 0
    ensures NtdllResolved(m, ntdll, symbols, LoadWord(m, ntdll.identity), index)
         == Resolved(m, ntdll, [], symbols, true, LoadWord(m, ntdll.identity), index)
  {
    assert Identified(m, Object(ntdll, [], 0), callback, table, 0);
    SelectsOwn(m, ntdll, [], symbols, callback, table, Call(0, index));
  }

  lemma CacheKeepsReady(
    m: Memory, exe: Plt, libs: seq<Plt>, symbols: seq<RuntimeSymbol>, callback: Word, table: Word, c: Call)
    requires Ready(m, exe, libs, symbols, callback, table) && IsCall(exe, libs, c)
    requires Expected(exe, libs, symbols, c).Some?
    ensures Ready(WriteBytes(m, Slot(exe, libs, c), LeBytes(Expected(exe, libs, symbols, c).value, 8)),
                  exe, libs, symbols, callback, table)
  {
    var slot, data := Slot(exe, libs, c), LeBytes(Expected(exe, libs, symbols, c).value, 8);
    var m1 := WriteBytes(m, slot, data);
    forall k | 0 <= k <= |libs| ensures Identified(m1, Object(exe, libs, k), callback, table, k) {
      var o := Object(exe, libs, k);
      assert Identified(m, o, callback, table, k) && SlotMisses(slot, o, table, k);
      LoadWordKept(m, slot, data, o.identity);
      LoadWordKept(m, slot, data, o.resolver);
      LoadWordKept(m, slot, data, Cell(table, k));
    }
    forall d | IsCall(exe, libs, d) ensures SlotValid(m1, exe, libs, symbols, d) {
      assert SlotValid(m, exe, libs, symbols, d);
      if d == c {
        HoldsWord(m1, slot, Expected(exe, libs, symbols, c).value);
      } else {
        LoadWordKept(m, slot, data, Slot(exe, libs, d));
      }
    }
  }

  /** One call, cached or not, arrives at the symbol's address and keeps the invariant. */
  lemma CallArrives(
    m: Memory, exe: Plt, libs: seq<Plt>, symbols: seq<RuntimeSymbol>, caching: bool, callback: Word, table: Word,
    c: Call)
    requires Ready(m, exe, libs, symbols, callback, table) && IsCall(exe, libs, c)
    ensures match CallOnce(m, exe, libs, symbols, caching, c)
            case None => Expected(exe, libs, symbols, c) == None
            case Some((m1, w)) =>
              Expected(exe, libs, symbols, c) == Some(w) && Ready(m1, exe, libs, symbols, callback, table)
  {
    assert SlotValid(m, exe, libs, symbols, c);
    SelectsOwn(m, exe, libs, symbols, callback, table, c);
    if Expected(exe, libs, symbols, c).Some? {
      CacheKeepsReady(m, exe, libs, symbols, callback, table, c);
    }
  }

  /** What every run should see: the symbol of each call, up to the first name without one. */
  function ExpectedRun(exe: Plt, libs: seq<Plt>, symbols: seq<RuntimeSymbol>, calls: seq<Call>): seq<Option<Word>>
    requires forall c :: c in calls ==> IsCall(exe, libs, c)
  {
    if calls == [] then []
    else if Expected(exe, libs, symbols, calls[0]) == None then [None]
    else [Expected(exe, libs, symbols, calls[0])] + ExpectedRun(exe, libs, symbols, calls[1..])
  }

  /** Over every finite run, from any objects in any order, each call arrives where the symbol search says. */
  lemma {:induction false} RunArrives(
    m: Memory, exe: Plt, libs: seq<Plt>, symbols: seq<RuntimeSymbol>, caching: bool, callback: Word, table: Word,
    calls: seq<Call>)
    requires Ready(m, exe, libs, symbols, callback, table)
    requires forall c :: c in calls ==> IsCall(exe, libs, c)
    ensures Run(m, exe, libs, symbols, caching, calls) == ExpectedRun(exe, libs, symbols, calls)
    decreases |calls|
  {
    if calls != [] {
      CallArrives(m, exe, libs, symbols, caching, callback, table, calls[0]);
      match CallOnce(m, exe, libs, symbols, caching, calls[0])
      case None =>
      case Some((m1, w)) => RunArrives(m1, exe, libs, symbols, caching, callback, table, calls[1..]);
    }
  }

  /** Caching the resolved addresses changes no callee of any run. */
  lemma CachingRefines(
    m: Memory, exe: Plt, libs: seq<Plt>, symbols: seq<RuntimeSymbol>, callback: Word, table: Word, calls: seq<Call>)
    requires Ready(m, exe, libs, symbols, callback, table)
    requires forall c :: c in calls ==> IsCall(exe, libs, c)
    ensures Run(m, exe, libs, symbols, true, calls) == Run(m, exe, libs, symbols, false, calls)
  {
    RunArrives(m, exe, libs, symbols, true, callback, table, calls);
    RunArrives(m, exe, libs, symbols, false, callback, table, calls);
  }

  // ---------------------------------------------------------------- the resolver as it runs

  class LazyLinker {
    var memory: Memory
    const exe: Plt
    const libs: seq<Plt>
    const symbols: seq<RuntimeSymbol>
    const caching: bool              // CACHE_DYNAMIC_LINKING

    constructor (memory: Memory, exe: Plt, libs: seq<Plt>, symbols: seq<RuntimeSymbol>, caching: bool)
      ensures this.memory == memory && this.exe == exe && this.libs == libs
      ensures this.symbols == symbols && this.caching == caching
    {
      this.memory, this.exe, this.libs, this.symbols, this.caching := memory, exe, libs, symbols, caching;
    }

    method SelectRelocation(identity: Word, index: nat) returns (r: Option<RuntimeRelocation>)
      ensures r == Selected(memory, exe, libs, identity, index)
    {
      if identity == 0 {
        return None;
      }
      var offset := LoadWord(memory, identity);
      if offset == exe.base {
        return if index < |exe.relocs| then Some(exe.relocs[index]) else None;
      }
      r := None;
      for i := 0 to |libs|
        invariant SelectedFrom(libs, offset, index, 0, None) == SelectedFrom(libs, offset, index, i, r)
      {
        if libs[i].base != offset {
          continue;
        }
        if index >= |libs[i].relocs| {
          return None;
        }
        r := Some(libs[i].relocs[index]);
      }
    }

    /** The resolver part of `dynamic_callback_linux`. */
    method Resolve(identity: Word, index: nat) returns (address: Option<Word>)
      modifies this`memory
      ensures match Resolved(old(memory), exe, libs, symbols, caching, identity, index)
              case None => address == None && memory == old(memory)
              case Some((m1, w)) => address == Some(w) && memory == m1
    {
      var r := SelectRelocation(identity, index);
      if r == None {
        return None;
      }
      var s := FindRuntimeSymbol(r.value.name, symbols, 0);
      if s == None {
        return None;
      }
      if caching {
        memory := WriteBytes(memory, r.value.offset, LeBytes(s.value.value, 8));
      }
      return Some(s.value.value);
    }

    /** A program's call through its procedure linkage table: the table entry jumps through the slot; the
        stub pushes the index and the identity and jumps through the resolver word to the callback. */
    method CallThroughPlt(cpu: Cpu, k: nat, i: nat, callback: Word, ghost table: Word, junk: State)
      returns (arrived: bool)
      requires IsCall(exe, libs, Call(k, i)) && Ready(memory, exe, libs, symbols, callback, table)
      modifies this`memory, cpu
      ensures Ready(memory, exe, libs, symbols, callback, table)
      ensures arrived <==> Expected(exe, libs, symbols, Call(k, i)).Some?
      ensures arrived ==> WentTo(old(cpu.c), cpu.c, Expected(exe, libs, symbols, Call(k, i)).value)
    {
      hide Ready, LoadWord;
      CallArrives(memory, exe, libs, symbols, caching, callback, table, Call(k, i));
      var o := Object(exe, libs, k);
      var w := LoadWord(memory, o.relocs[i].offset);
      if w != o.stubs[i] {
        cpu.c := cpu.c.(rip := w);
        return true;
      }
      var c := cpu.c;
      cpu.c := cpu.c.Push(i);
      cpu.c := cpu.c.Push(LoadWord(memory, o.identity));
      ResolverWord(memory, exe, libs, symbols, callback, table, k);
      cpu.c := cpu.c.(rip := LoadWord(memory, o.resolver));
      cpu.EnterLinuxCallback(callback);
      var identity, index := cpu.c.stack[cpu.c.rbp + 8], cpu.c.stack[cpu.c.rbp + 16];
      ghost var c' := CallState(cpu.c);
      var address := Resolve(identity, index);
      if address == None {
        return false;
      }
      cpu.LeaveToFunction(junk, address.value);
      DirectShift(c, c', cpu.c, address.value);
      return true;
    }
  }

  // ---------------------------------------------------------------- the Windows loader's resolver

  class NtdllLinker {
    var memory: Memory
    const ntdll: Plt
    const symbols: seq<RuntimeSymbol>

    constructor (memory: Memory, ntdll: Plt, symbols: seq<RuntimeSymbol>)
      ensures this.memory == memory && this.ntdll == ntdll && this.symbols == symbols
    {
      this.memory, this.ntdll, this.symbols := memory, ntdll, symbols;
    }

    /** The resolver part of the Windows loader's `dynamic_callback_linux`. */
    method Resolve(identity: Word, index: nat) returns (address: Option<Word>)
      modifies this`memory
      ensures match NtdllResolved(old(memory), ntdll, symbols, identity, index)
              case None => address == None && memory == old(memory)
              case Some((m1, w)) => address == Some(w) && memory == m1
    {
      if identity == 0 || index >= |ntdll.relocs| {
        return None;
      }
      var r := ntdll.relocs[index];
      var s := FindRuntimeSymbol(r.name, symbols, 0);
      if s == None {
        return None;
      }
      memory := WriteBytes(memory, r.offset, LeBytes(s.value.value, 8));
      return Some(s.value.value);
    }
  }
}
