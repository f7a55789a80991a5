/** Linking an ELF executable with its shared libraries: symbols, variable relocations, the global
    offset tables and the table of object offsets, in the order the loader goes through them. */
module ElfLink {
  import opened Words
  import opened AddressSpace
  import opened ElfTypes

  // ---------------------------------------------------------------- symbols

  // An undefined symbol, of value 0, stays at 0.
  function Relocated(base: Word, value: Word): Word {
    if value == 0 then 0 else Wrap(base + value)
  }

  function SymbolsOf(dyn: DynamicData, offset: Word): (r: seq<RuntimeSymbol>)
    ensures |r| == |dyn.symbols|
  {
    seq(|dyn.symbols|, i requires 0 <= i < |dyn.symbols| =>
      RuntimeSymbol(Relocated(offset, dyn.symbols[i].value), dyn.symbols[i].name, dyn.symbols[i].size))
  }

  function LibrarySymbols(libs: seq<SharedObject>): seq<RuntimeSymbol> {
    if libs == [] then []
    else LibrarySymbols(libs[..|libs| - 1]) + SymbolsOf(libs[|libs| - 1].dyn, libs[|libs| - 1].base)
  }

  /** The search order: the executable, recorded at offset 0, then the libraries. */
  function AllSymbols(exe: DynamicData, libs: seq<SharedObject>): seq<RuntimeSymbol> {
    SymbolsOf(exe, 0) + LibrarySymbols(libs)
  }

  predicate Matches(s: RuntimeSymbol, name: string, ignored: Word) {
    s.value != 0 && s.value != ignored && s.name == name
  }

  function FindSymbol(symbols: seq<RuntimeSymbol>, name: string, ignored: Word, from: nat): Option<RuntimeSymbol>
    requires from <= |symbols|
    decreases |symbols| - from
  {
    if from == |symbols| then None
    else if Matches(symbols[from], name, ignored) then Some(symbols[from])
    else FindSymbol(symbols, name, ignored, from + 1)
  }

  method FindRuntimeSymbol(name: string, symbols: seq<RuntimeSymbol>, ignored: Word)
    returns (r: Option<RuntimeSymbol>)
    ensures r == FindSymbol(symbols, name, ignored, 0)
  {
    for i := 0 to |symbols|
      invariant FindSymbol(symbols, name, ignored, 0) == FindSymbol(symbols, name, ignored, i)
    {
      if symbols[i].value == 0 {
        continue;
      }
      if symbols[i].value == ignored {
        continue;
      }
      if symbols[i].name == name {
        return Some(symbols[i]);
      }
    }
    return None;
  }

  method FindSymbols(dyn: DynamicData, offset: Word) returns (r: seq<RuntimeSymbol>)
    ensures r == SymbolsOf(dyn, offset)
  {
    r := [];
    for i := 0 to |dyn.symbols|
      invariant r == SymbolsOf(dyn, offset)[..i]
    {
      var s := dyn.symbols[i];
      var value := if s.value == 0 then 0 else Wrap(offset + s.value);
      r := r + [RuntimeSymbol(value, s.name, s.size)];
    }
  }

  // ---------------------------------------------------------------- variable relocations

  function ExeRelocation(r: Relocation, offset: Word): RuntimeRelocation {
    RuntimeRelocation(Wrap(offset + r.offset), r.kind, r.addend, Wrap(offset + r.symbol.value), r.symbol.name)
  }

  function LibraryRelocation(r: Relocation, base: Word): RuntimeRelocation {
    RuntimeRelocation(Wrap(base + r.offset), r.kind, r.addend, Relocated(base, r.symbol.value), r.symbol.name)
  }

  function ExeRelocations(exe: DynamicData, offset: Word): (r: seq<RuntimeRelocation>)
    ensures |r| == |exe.varRelocs|
  {
    seq(|exe.varRelocs|, i requires 0 <= i < |exe.varRelocs| => ExeRelocation(exe.varRelocs[i], offset))
  }

  function OneLibraryRelocations(lib: SharedObject): (r: seq<RuntimeRelocation>)
    ensures |r| == |lib.dyn.varRelocs|
  {
    seq(|lib.dyn.varRelocs|,
        i requires 0 <= i < |lib.dyn.varRelocs| => LibraryRelocation(lib.dyn.varRelocs[i], lib.base))
  }

  function LibraryRelocations(libs: seq<SharedObject>): seq<RuntimeRelocation> {
    if libs == [] then []
    else LibraryRelocations(libs[..|libs| - 1]) + OneLibraryRelocations(libs[|libs| - 1])
  }

  function AllRelocations(exe: DynamicData, offset: Word, libs: seq<SharedObject>): seq<RuntimeRelocation> {
    ExeRelocations(exe, offset) + LibraryRelocations(libs)
  }

  /** The relocation with its final value; none for an unsupported type or an unknown name. */
  function ResolveOne(r: RuntimeRelocation, symbols: seq<RuntimeSymbol>): Option<RuntimeRelocation> {
    if r.kind != R_X86_64_COPY && r.kind != R_X86_64_GLOB_DAT && r.kind != R_X86_64_RELATIVE then None
    else if r.kind == R_X86_64_RELATIVE then Some(r.(value := Wrap(r.value + r.addend)))
    else
      match FindSymbol(symbols, r.name, 0, 0)
      case None => None
      case Some(s) => Some(r.(value := s.value))
  }

  function ResolveFrom(rs: seq<RuntimeRelocation>, k: nat, symbols: seq<RuntimeSymbol>): Option<seq<RuntimeRelocation>>
    requires k <= |rs|
    decreases |rs| - k
  {
    if k == |rs| then Some(rs)
    else
      match ResolveOne(rs[k], symbols)
      case None => None
      case Some(r) => ResolveFrom(rs[k := r], k + 1, symbols)
  }

  // ---------------------------------------------------------------- the global offset tables

  function RuntimeGot(e: GotEntry, base: Word, callback: Word, cell: Word): RuntimeGotEntry {
    var index := Wrap(base + e.index);
    if e.isCallback then RuntimeGotEntry(index, callback, 0)
    else if e.isTable then RuntimeGotEntry(index, cell, base)
    else RuntimeGotEntry(index, Relocated(base, e.value), 0)
  }

  function GotOf(dyn: DynamicData, base: Word, callback: Word, cell: Word): (r: seq<RuntimeGotEntry>)
    ensures |r| == |dyn.got|
  {
    seq(|dyn.got|, i requires 0 <= i < |dyn.got| => RuntimeGot(dyn.got[i], base, callback, cell))
  }

  /** The cell of object `k` in the offset table; the executable is object 0. */
  function Cell(table: Word, k: nat): Word {
    Wrap(table + 8 * k)
  }

  function LibraryGots(libs: seq<SharedObject>, callback: Word, table: Word): seq<RuntimeGotEntry> {
    if libs == [] then []
    else
      var n := |libs| - 1;
      LibraryGots(libs[..n], callback, table) + GotOf(libs[n].dyn, libs[n].base, callback, Cell(table, n + 1))
  }

  function AllGots(exe: DynamicData, offset: Word, libs: seq<SharedObject>, callback: Word, table: Word)
    : seq<RuntimeGotEntry>
  {
    GotOf(exe, offset, callback, Cell(table, 0)) + LibraryGots(libs, callback, table)
  }

  /** The first entry at the address; the length of the list when there is none. */
  function GotIndex(got: seq<RuntimeGotEntry>, address: Word, from: nat): (i: nat)
    requires from <= |got|
    ensures from <= i <= |got|
    ensures i < |got| ==> got[i].index == address
    ensures forall j :: from <= j < i ==> got[j].index != address
    decreases |got| - from
  {
    if from == |got| || got[from].index == address then from else GotIndex(got, address, from + 1)
  }

  /** GLOB_DAT relocations become the values of their entries. */
  function PatchFrom(got: seq<RuntimeGotEntry>, rs: seq<RuntimeRelocation>, k: nat): Option<seq<RuntimeGotEntry>>
    requires k <= |rs|
    decreases |rs| - k
  {
    if k == |rs| then Some(got)
    else if rs[k].kind != R_X86_64_GLOB_DAT then PatchFrom(got, rs, k + 1)
    else
      var i := GotIndex(got, rs[k].offset, 0);
      if i == |got| then None else PatchFrom(got[i := got[i].(value := rs[k].value)], rs, k + 1)
  }

  // ---------------------------------------------------------------- stores

  function BssPatches(libs: seq<SharedObject>): seq<Patch> {
    if libs == [] then []
    else
      var init := BssPatches(libs[..|libs| - 1]);
      match libs[|libs| - 1].bss
      case None => init
      case Some((at, n)) => init + [Patch(at, Zeros(n))]
  }

  function GotEntryPatches(e: RuntimeGotEntry): seq<Patch> {
    if e.tableOffset == 0 then [Patch(e.index, LeBytes(e.value, 8))]
    else [Patch(e.index, LeBytes(e.value, 8)), Patch(e.value, LeBytes(e.tableOffset, 8))]
  }

  function GotPatches(got: seq<RuntimeGotEntry>): seq<Patch> {
    if got == [] then [] else GotPatches(got[..|got| - 1]) + GotEntryPatches(got[|got| - 1])
  }

  /** The eight bytes a COPY relocation stores: the variable's bytes on top of whatever the
      uninitialised local held. */
  function CopyData(m: Memory, s: RuntimeSymbol, stale: Word): (r: seq<Byte>)
    requires s.size <= 8
    ensures |r| == 8
  {
    LoadBytes(m, s.value, s.size) + LeBytes(stale, 8)[s.size..]
  }

  function StoreVariable(m: Memory, r: RuntimeRelocation, symbols: seq<RuntimeSymbol>, stale: Word): Option<Memory> {
    if r.kind == R_X86_64_RELATIVE then Some(WriteBytes(m, r.offset, LeBytes(r.value, 8)))
    else if r.kind != R_X86_64_COPY then Some(m)
    else
      match FindSymbol(symbols, r.name, r.offset, 0)
      case None => None
      case Some(s) => if s.size > 8 then None else Some(WriteBytes(m, r.offset, CopyData(m, s, stale)))
  }

  function VariablesFrom(
    m: Memory, rs: seq<RuntimeRelocation>, k: nat, symbols: seq<RuntimeSymbol>, stale: nat -> Word): Option<Memory>
    requires k <= |rs|
    decreases |rs| - k
  {
    if k == |rs| then Some(m)
    else
      match StoreVariable(m, rs[k], symbols, stale(k))
      case None => None
      case Some(m1) => VariablesFrom(m1, rs, k + 1, symbols, stale)
  }

  // ---------------------------------------------------------------- the loader

  class ElfLoader {
    var memory: Memory
    var symbols: seq<RuntimeSymbol>     // runtime_symbols
    const callback: Word                // dynamic_callback_linux
    const table: Word                   // got_lib_dyn_offset_table

    constructor (memory: Memory, callback: Word, table: Word)
      ensures this.memory == memory && this.callback == callback && this.table == table && symbols == []
    {
      this.memory, this.callback, this.table := memory, callback, table;
      symbols := [];
    }

    method CollectSymbols(exe: DynamicData, libs: seq<SharedObject>)
      modifies this`symbols
      ensures symbols == AllSymbols(exe, libs)
    {
      symbols := FindSymbols(exe, 0);
      for i := 0 to |libs|
        invariant symbols == SymbolsOf(exe, 0) + LibrarySymbols(libs[..i])
      {
        assert libs[..i + 1][..i] == libs[..i];
        var own := FindSymbols(libs[i].dyn, libs[i].base);
        symbols := symbols + own;
      }
      assert libs[..|libs|] == libs;
    }

    method CollectRelocations(exe: DynamicData, offset: Word, libs: seq<SharedObject>)
      returns (rs: seq<RuntimeRelocation>)
      ensures rs == AllRelocations(exe, offset, libs)
    {
      rs := CollectExeRelocations(exe, offset);
      for i := 0 to |libs|
        invariant rs == ExeRelocations(exe, offset) + LibraryRelocations(libs[..i])
      {
        assert libs[..i + 1][..i] == libs[..i];
        var own := CollectLibraryRelocations(libs[i]);
        rs := rs + own;
      }
      assert libs[..|libs|] == libs;
    }

    method CollectExeRelocations(exe: DynamicData, offset: Word) returns (rs: seq<RuntimeRelocation>)
      ensures rs == ExeRelocations(exe, offset)
    {
      rs := [];
      for i := 0 to |exe.varRelocs|
        invariant rs == ExeRelocations(exe, offset)[..i]
      {
        var r := exe.varRelocs[i];
        rs := rs + [RuntimeRelocation(
                      Wrap(offset + r.offset), r.kind, r.addend, Wrap(offset + r.symbol.value), r.symbol.name)];
      }
    }

    method CollectLibraryRelocations(lib: SharedObject) returns (rs: seq<RuntimeRelocation>)
      ensures rs == OneLibraryRelocations(lib)
    {
      rs := [];
      for j := 0 to |lib.dyn.varRelocs|
        invariant rs == OneLibraryRelocations(lib)[..j]
      {
        var r := lib.dyn.varRelocs[j];
        var value := if r.symbol.value == 0 then 0 else Wrap(lib.base + r.symbol.value);
        rs := rs + [RuntimeRelocation(Wrap(lib.base + r.offset), r.kind, r.addend, value, r.symbol.name)];
      }
    }

    method ResolveRelocations(all: seq<RuntimeRelocation>) returns (ok: bool, rs: seq<RuntimeRelocation>)
      ensures ResolveFrom(all, 0, symbols) == if ok then Some(rs) else None
    {
      rs := all;
      for i := 0 to |all|
        invariant |rs| == |all| && ResolveFrom(all, 0, symbols) == ResolveFrom(rs, i, symbols)
      {
        var r := rs[i];
        if r.kind != R_X86_64_COPY && r.kind != R_X86_64_GLOB_DAT && r.kind != R_X86_64_RELATIVE {
          return false, rs;
        }
        if r.kind == R_X86_64_RELATIVE {
          rs := rs[i := r.(value := Wrap(r.value + r.addend))];
          continue;
        }
        var s := FindRuntimeSymbol(r.name, symbols, 0);
        if s == None {
          return false, rs;
        }
        rs := rs[i := r.(value := s.value.value)];
      }
      return true, rs;
    }

    method GetRuntimeGot(dyn: DynamicData, base: Word, cell: Word) returns (got: seq<RuntimeGotEntry>)
      ensures got == GotOf(dyn, base, callback, cell)
    {
      got := [];
      for i := 0 to |dyn.got|
        invariant got == GotOf(dyn, base, callback, cell)[..i]
      {
        var e := dyn.got[i];
        var value: Word, tableOffset: Word := 0, 0;
        if e.isCallback {
          value := callback;
        } else if e.isTable {
          value, tableOffset := cell, base;
        } else if e.value != 0 {
          value := Wrap(base + e.value);
        }
        got := got + [RuntimeGotEntry(Wrap(base + e.index), value, tableOffset)];
      }
    }

    method CollectGots(exe: DynamicData, offset: Word, libs: seq<SharedObject>) returns (got: seq<RuntimeGotEntry>)
      ensures got == AllGots(exe, offset, libs, callback, table)
    {
      got := GetRuntimeGot(exe, offset, Cell(table, 0));
      for i := 0 to |libs|
        invariant got == GotOf(exe, offset, callback, Cell(table, 0)) + LibraryGots(libs[..i], callback, table)
      {
        assert libs[..i + 1][..i] == libs[..i];
        var own := GetRuntimeGot(libs[i].dyn, libs[i].base, Cell(table, i + 1));
        got := got + own;
      }
      assert libs[..|libs|] == libs;
    }

    method FindGotEntry(got: seq<RuntimeGotEntry>, address: Word) returns (i: nat)
      ensures i == GotIndex(got, address, 0)
    {
      i := 0;
      while i < |got| && got[i].index != address
        invariant i <= |got| && GotIndex(got, address, 0) == GotIndex(got, address, i)
      {
        i := i + 1;
      }
    }

    method PatchGot(all: seq<RuntimeGotEntry>, rs: seq<RuntimeRelocation>)
      returns (ok: bool, got: seq<RuntimeGotEntry>)
      ensures PatchFrom(all, rs, 0) == if ok then Some(got) else None
    {
      got := all;
      for k := 0 to |rs|
        invariant PatchFrom(all, rs, 0) == PatchFrom(got, rs, k)
      {
        if rs[k].kind != R_X86_64_GLOB_DAT {
          continue;
        }
        var i := FindGotEntry(got, rs[k].offset);
        if i == |got| {
          return false, got;
        }
        got := got[i := got[i].(value := rs[k].value)];
      }
      return true, got;
    }

    method ClearBss(libs: seq<SharedObject>)
      modifies this`memory
      ensures memory == Apply(old(memory), BssPatches(libs))
    {
      for i := 0 to |libs|
        invariant memory == Apply(old(memory), BssPatches(libs[..i]))
      {
        assert libs[..i + 1][..i] == libs[..i];
        if libs[i].bss.Some? {
          var (at, n) := libs[i].bss.value;
          ApplyConcat(old(memory), BssPatches(libs[..i]), [Patch(at, Zeros(n))]);
          OnePatch(memory, Patch(at, Zeros(n)));
          memory := WriteBytes(memory, at, Zeros(n));
        }
      }
      assert libs[..|libs|] == libs;
    }

    method InitGot(got: seq<RuntimeGotEntry>)
      modifies this`memory
      ensures memory == Apply(old(memory), GotPatches(got))
    {
      hide LeBytes, WriteBytes;
      for i := 0 to |got|
        invariant memory == Apply(old(memory), GotPatches(got[..i]))
      {
        assert got[..i + 1][..i] == got[..i];
        ApplyConcat(old(memory), GotPatches(got[..i]), GotEntryPatches(got[i]));
        OnePatch(memory, Patch(got[i].index, LeBytes(got[i].value, 8)));
        TwoPatches(memory, Patch(got[i].index, LeBytes(got[i].value, 8)),
                   Patch(got[i].value, LeBytes(got[i].tableOffset, 8)));
        memory := WriteBytes(memory, got[i].index, LeBytes(got[i].value, 8));
        if got[i].tableOffset > 0 {
          memory := WriteBytes(memory, got[i].value, LeBytes(got[i].tableOffset, 8));
        }
      }
      assert got[..|got|] == got;
    }

    method InitVariables(rs: seq<RuntimeRelocation>, stale: nat -> Word) returns (ok: bool)
      modifies this`memory
      ensures VariablesFrom(old(memory), rs, 0, symbols, stale) == if ok then Some(memory) else None
    {
      for k := 0 to |rs|
        invariant VariablesFrom(old(memory), rs, 0, symbols, stale) == VariablesFrom(memory, rs, k, symbols, stale)
      {
        if rs[k].kind == R_X86_64_RELATIVE {
          memory := WriteBytes(memory, rs[k].offset, LeBytes(rs[k].value, 8));
          continue;
        }
        if rs[k].kind != R_X86_64_COPY {
          continue;
        }
        var s := FindRuntimeSymbol(rs[k].name, symbols, rs[k].offset);
        if s == None || s.value.size > 8 {
          return false;
        }
        memory := WriteBytes(memory, rs[k].offset, CopyData(memory, s.value, stale(k)));
      }
      return true;
    }

    /** `stale(k)` is what the uninitialised local of the copy loop holds at relocation `k`. */
    method InitializeDynamicData(exe: DynamicData, offset: Word, libs: seq<SharedObject>, stale: nat -> Word)
      returns (ok: bool)
      modifies this
      ensures symbols == AllSymbols(exe, libs)
      ensures Linked(old(memory), exe, offset, libs, callback, table, stale) == if ok then Some(memory) else None
    {
      CollectSymbols(exe, libs);
      var all := CollectRelocations(exe, offset, libs);
      var rs: seq<RuntimeRelocation>, got: seq<RuntimeGotEntry>;
      ok, rs := ResolveRelocations(all);
      if !ok {
        return;
      }
      got := CollectGots(exe, offset, libs);
      ok, got := PatchGot(got, rs);
      if !ok {
        return;
      }
      ClearBss(libs);
      InitGot(got);
      ok := InitVariables(rs, stale);
    }
  }

  /** Memory after linking; none when the loader gives up, and when a copy of more than eight bytes overruns the
      local it goes through. */
  function Linked(
    m: Memory, exe: DynamicData, offset: Word, libs: seq<SharedObject>, callback: Word, table: Word,
    stale: nat -> Word): Option<Memory>
  {
    var symbols := AllSymbols(exe, libs);
    match ResolveFrom(AllRelocations(exe, offset, libs), 0, symbols)
    case None => None
    case Some(rs) =>
      match PatchFrom(AllGots(exe, offset, libs, callback, table), rs, 0)
      case None => None
      case Some(got) =>
        VariablesFrom(Apply(Apply(m, BssPatches(libs)), GotPatches(got)), rs, 0, symbols, stale)
  }
}
