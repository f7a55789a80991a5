/** Memory after a successful link, in terms of the files alone: slots, copied variables and what is left
    alone, and exactly when the loader meets the relocation rules of the AMD64 psABI. */
module ElfLoaded {
  import opened AddressSpace
  import opened ElfLink
  import opened ElfLinked
  import opened ElfTypes
  import opened Words

  /** What the loader links: memory with all objects mapped, and their parsed tables. */
  datatype Link = Link(
    memory: Memory, exe: DynamicData, offset: Word, libs: seq<SharedObject>, callback: Word, table: Word)
  {
    function Relocations(): seq<RuntimeRelocation> {
      AllRelocations(exe, offset, libs)
    }

    function Symbols(): seq<RuntimeSymbol> {
      AllSymbols(exe, libs)
    }

    function Gots(): seq<RuntimeGotEntry> {
      AllGots(exe, offset, libs, callback, table)
    }

    /** Memory after linking; `stale` is what the copy loop's uninitialised local holds. */
    function After(stale: nat -> Word): Option<Memory> {
      Linked(memory, exe, offset, libs, callback, table, stale)
    }

    /** The symbol that relocation `j` copies from. */
    function CopySource(j: nat): Option<RuntimeSymbol>
      requires j < |Relocations()|
    {
      FindSymbol(Symbols(), Relocations()[j].name, Relocations()[j].offset, 0)
    }

    /** Memory once the .bss sections of the libraries are cleared. */
    function Cleared(): Memory {
      Apply(memory, BssPatches(libs))
    }
  }

  ghost predicate WellSpaced(l: Link) {
    Layout(l.Relocations(), l.Gots())
  }

  predicate EntryAvoids(e: RuntimeGotEntry, a: int, n: int) {
    Apart(e.index, 8, a, n) && (e.tableOffset != 0 ==> Apart(e.value, 8, a, n))
  }

  /** No entry of an offset table and no object's cell is in the range. */
  ghost predicate GotsAvoid(l: Link, a: int, n: int) {
    forall e :: e in l.Gots() ==> EntryAvoids(e, a, n)
  }

  /** Neither is a .bss section. */
  ghost predicate Untouched(l: Link, a: int, n: int) {
    GotsAvoid(l, a, n) && forall p :: p in BssPatches(l.libs) ==> Misses(p, a, n)
  }

  /** No COPY or RELATIVE relocation before `j` stores into the range. */
  predicate NotStored(l: Link, j: nat, a: int, n: int)
    requires j <= |l.Relocations()|
  {
    forall i | 0 <= i < j && IsStore(l.Relocations()[i]) :: Apart(l.Relocations()[i].offset, 8, a, n)
  }

  /** No COPY or RELATIVE relocation after `j` stores into the range. */
  predicate NotOverwritten(l: Link, j: nat, a: int, n: int) {
    LaterAvoid(l.Relocations(), j, a, n)
  }

  predicate StoresApart(rs: seq<RuntimeRelocation>) {
    forall i, j | 0 <= i < j < |rs| && IsStore(rs[i]) && IsStore(rs[j]) :: Apart(rs[i].offset, 8, rs[j].offset, 8)
  }

  // ---------------------------------------------------------------- when a link succeeds

  /** What a relocation needs: a known type and, except for RELATIVE, a definition; GLOB_DAT also an entry of an
      offset table at its place, and COPY a source of at most 8 bytes, for a longer one overruns a local. */
  predicate Linkable(l: Link, r: RuntimeRelocation) {
    || r.kind == R_X86_64_RELATIVE
    || (r.kind == R_X86_64_GLOB_DAT && FindSymbol(l.Symbols(), r.name, 0, 0).Some? && HasEntryAt(l.Gots(), r.offset))
    || (r.kind == R_X86_64_COPY && HasSource(l.Symbols(), r))
  }

  /** A link succeeds exactly when all its relocations are linkable; what is in memory plays no part. */
  lemma LinkSucceeds(l: Link, stale: nat -> Word)
    ensures l.After(stale).Some? <==> forall j :: 0 <= j < |l.Relocations()| ==> Linkable(l, l.Relocations()[j])
  {
    var all, symbols := l.Relocations(), l.Symbols();
    hide AllRelocations, AllSymbols, AllGots, FindSymbol, HasEntryAt;
    ResolveSucceeds(all, 0, symbols);
    forall r: RuntimeRelocation ensures Linkable(l, r) ==> ResolveOne(r, symbols).Some? {
      AnySymbol(symbols, r.name, r.offset, 0);
    }
    if ResolveFrom(all, 0, symbols).Some? {
      var rs := ResolveFrom(all, 0, symbols).value;
      ResolvedAt(all, 0, symbols, rs);
      forall j | 0 <= j < |all|
        ensures SameTarget(rs[j], all[j]) && ResolveOne(all[j], symbols).Some?
      {
        assert ResolveOne(all[j], symbols) == Some(rs[j]);
      }
      PatchSucceeds(l.Gots(), rs, 0);
      if PatchFrom(l.Gots(), rs, 0).Some? {
        StoresSucceed(AfterGot(l.memory, l.libs, PatchFrom(l.Gots(), rs, 0).value), rs, 0, symbols, stale);
      }
      SameNeeds(l, rs);
    }
  }

  lemma SameNeeds(l: Link, rs: seq<RuntimeRelocation>)
    requires |rs| == |l.Relocations()|
    requires forall j :: 0 <= j < |rs| ==>
      SameTarget(rs[j], l.Relocations()[j]) && ResolveOne(l.Relocations()[j], l.Symbols()).Some?
    ensures (forall j :: 0 <= j < |rs| ==> Linkable(l, l.Relocations()[j])) <==>
      && (forall j :: 0 <= j < |rs| && IsGlobDat(rs[j]) ==> HasEntryAt(l.Gots(), rs[j].offset))
      && (forall j :: 0 <= j < |rs| && rs[j].kind == R_X86_64_COPY ==> HasSource(l.Symbols(), rs[j]))
  {
    hide AllRelocations, AllSymbols, AllGots, FindSymbol, HasEntryAt;
    forall j | 0 <= j < |rs|
      ensures Linkable(l, l.Relocations()[j]) <==>
        && (IsGlobDat(rs[j]) ==> HasEntryAt(l.Gots(), rs[j].offset))
        && (rs[j].kind == R_X86_64_COPY ==> HasSource(l.Symbols(), rs[j]))
    {
      assert SameTarget(rs[j], l.Relocations()[j]);
    }
  }

  lemma {:induction false} AnySymbol(symbols: seq<RuntimeSymbol>, name: string, ignored: Word, from: nat)
    requires from <= |symbols|
    ensures FindSymbol(symbols, name, ignored, from).Some? ==> FindSymbol(symbols, name, 0, from).Some?
    decreases |symbols| - from
  {
    if from < |symbols| {
      AnySymbol(symbols, name, ignored, from + 1);
    }
  }

  // ---------------------------------------------------------------- the tables of a load

  lemma {:induction false} GotPatchesMiss(got: seq<RuntimeGotEntry>, a: int, n: int)
    requires forall i :: 0 <= i < |got| ==> EntryAvoids(got[i], a, n)
    ensures forall p :: p in GotPatches(got) ==> Misses(p, a, n)
  {
    hide LeBytes;
    if got != [] {
      GotPatchesMiss(got[..|got| - 1], a, n);
      assert EntryAvoids(got[|got| - 1], a, n);
    }
  }

  lemma PatchesMiss(
    l: Link, stale: nat -> Word, m1: Memory, rs: seq<RuntimeRelocation>, got: seq<RuntimeGotEntry>, a: int, n: int)
    requires IsLinking(l, stale, rs, got, m1) && WellSpaced(l) && GotsAvoid(l, a, n)
    ensures forall p :: p in GotPatches(got) ==> Misses(p, a, n)
  {
    LayoutKept(l.Relocations(), l.Symbols(), rs, l.Gots(), got);
    PatchedShape(l.Gots(), rs, 0, got);
    forall i | 0 <= i < |got| ensures EntryAvoids(got[i], a, n) {
      assert l.Gots()[i] in l.Gots() && EntryAvoids(l.Gots()[i], a, n);
    }
    GotPatchesMiss(got, a, n);
  }

  ghost predicate IsLinking(
    l: Link, stale: nat -> Word, rs: seq<RuntimeRelocation>, got: seq<RuntimeGotEntry>, m1: Memory)
  {
    Linking(l.memory, l.exe, l.offset, l.libs, l.callback, l.table, stale, rs, got, m1)
  }

  lemma Tables(l: Link, stale: nat -> Word, m1: Memory)
    returns (rs: seq<RuntimeRelocation>, got: seq<RuntimeGotEntry>)
    requires l.After(stale) == Some(m1)
    ensures IsLinking(l, stale, rs, got, m1)
    ensures |rs| == |l.Relocations()|
    ensures forall j :: 0 <= j < |rs| ==> SameTarget(rs[j], l.Relocations()[j])
  {
    rs, got := LinkingExists(l.memory, l.exe, l.offset, l.libs, l.callback, l.table, stale, m1);
    ResolvedAt(l.Relocations(), 0, l.Symbols(), rs);
    forall j | 0 <= j < |rs| ensures SameTarget(rs[j], l.Relocations()[j]) {
      assert ResolveOne(l.Relocations()[j], l.Symbols()) == Some(rs[j]);
    }
  }

  predicate SameTarget(r: RuntimeRelocation, s: RuntimeRelocation) {
    r.offset == s.offset && r.kind == s.kind && r.name == s.name
  }

  // ---------------------------------------------------------------- GLOB_DAT, and what is left alone

  /** A GLOB_DAT slot holds the first nonzero symbol of its name in the order executable, libraries. */
  lemma GlobDatSlot(l: Link, stale: nat -> Word, m1: Memory, j: nat)
    requires l.After(stale) == Some(m1) && WellSpaced(l)
    requires j < |l.Relocations()| && IsGlobDat(l.Relocations()[j])
    ensures var s := FindSymbol(l.Symbols(), l.Relocations()[j].name, 0, 0);
      s.Some? && LoadWord(m1, l.Relocations()[j].offset) == s.value.value
  {
    var rs, got := Tables(l, stale, m1);
    GlobDatHolds(l.memory, l.exe, l.offset, l.libs, l.callback, l.table, stale, rs, got, m1, j);
  }

  /** So all objects agree on the address behind a name. */
  lemma ObjectsAgree(l: Link, stale: nat -> Word, m1: Memory, i: nat, j: nat)
    requires l.After(stale) == Some(m1) && WellSpaced(l)
    requires i < |l.Relocations()| && j < |l.Relocations()|
    requires IsGlobDat(l.Relocations()[i]) && IsGlobDat(l.Relocations()[j])
    requires l.Relocations()[i].name == l.Relocations()[j].name
    ensures LoadWord(m1, l.Relocations()[i].offset) == LoadWord(m1, l.Relocations()[j].offset)
  {
    GlobDatSlot(l, stale, m1, i);
    GlobDatSlot(l, stale, m1, j);
  }

  /** A slot for the executable's own first symbol of a name holds its run-time address exactly when the
      executable is not relocated. */
  lemma ExecutableSymbolSlot(l: Link, stale: nat -> Word, m1: Memory, j: nat, i: nat)
    requires l.After(stale) == Some(m1) && WellSpaced(l)
    requires j < |l.Relocations()| && IsGlobDat(l.Relocations()[j])
    requires i < |l.exe.symbols| && l.exe.symbols[i].value != 0 && l.exe.symbols[i].name == l.Relocations()[j].name
    requires forall k :: 0 <= k < i && l.exe.symbols[k].name == l.exe.symbols[i].name ==> l.exe.symbols[k].value == 0
    ensures LoadWord(m1, l.Relocations()[j].offset) == Wrap(l.offset + l.exe.symbols[i].value) <==> l.offset == 0
  {
    hide WellSpaced, LoadWord, Linked;
    GlobDatSlot(l, stale, m1, j);
    ExecutableSymbolAddress(l.exe, l.libs, l.offset, i);
    ExecutableSymbolFirst(l, i);
  }

  lemma ExecutableSymbolFirst(l: Link, i: nat)
    requires i < |l.exe.symbols| && l.exe.symbols[i].value != 0
    requires forall k :: 0 <= k < i && l.exe.symbols[k].name == l.exe.symbols[i].name ==> l.exe.symbols[k].value == 0
    ensures FindSymbol(l.Symbols(), l.exe.symbols[i].name, 0, 0)
         == Some(RuntimeSymbol(l.exe.symbols[i].value, l.exe.symbols[i].name, l.exe.symbols[i].size))
  {
    forall k | 0 <= k <= i
      ensures l.Symbols()[k].name == l.exe.symbols[k].name && l.Symbols()[k].value == l.exe.symbols[k].value
      ensures l.Symbols()[k].size == l.exe.symbols[k].size
    {
      RecordedAtZero(l, k);
    }
    FindSymbolIs(l.Symbols(), l.exe.symbols[i].name, 0, 0, i);
  }

  lemma RecordedAtZero(l: Link, k: nat)
    requires k < |l.exe.symbols|
    ensures k < |l.Symbols()|
    ensures l.Symbols()[k] == RuntimeSymbol(l.exe.symbols[k].value, l.exe.symbols[k].name, l.exe.symbols[k].size)
  {
  }

  /** Bytes outside .bss, offset tables, cells and relocated variables keep their values. */
  lemma Frame(l: Link, stale: nat -> Word, m1: Memory, x: int)
    requires l.After(stale) == Some(m1) && WellSpaced(l) && x in l.memory
    requires Untouched(l, x, 1) && NotStored(l, |l.Relocations()|, x, 1)
    ensures x in m1 && m1[x] == l.memory[x]
  {
    var rs, got := Tables(l, stale, m1);
    PatchesMiss(l, stale, m1, rs, got, x, 1);
    LinkFrame(l.memory, l.exe, l.offset, l.libs, l.callback, l.table, stale, rs, got, m1, x);
  }

  // ---------------------------------------------------------------- RELATIVE

  lemma {:induction false} LibraryRelocationAt(libs: seq<SharedObject>, k: nat, t: nat) returns (j: nat)
    requires k < |libs| && t < |libs[k].dyn.varRelocs|
    ensures j < |LibraryRelocations(libs)|
    ensures LibraryRelocations(libs)[j] == LibraryRelocation(libs[k].dyn.varRelocs[t], libs[k].base)
  {
    var n := |libs| - 1;
    if k < n {
      j := LibraryRelocationAt(libs[..n], k, t);
    } else {
      j := |LibraryRelocations(libs[..n])| + t;
    }
  }

  /** The slot of a library's RELATIVE relocation, which names no symbol, holds B + A exactly when the library
      is loaded at 0; it holds A. */
  lemma LibraryRelative(l: Link, stale: nat -> Word, m1: Memory, k: nat, t: nat)
    requires l.After(stale) == Some(m1) && StoresApart(l.Relocations())
    requires k < |l.libs| && t < |l.libs[k].dyn.varRelocs|
    requires l.libs[k].dyn.varRelocs[t].kind == R_X86_64_RELATIVE && l.libs[k].dyn.varRelocs[t].symbol.value == 0
    ensures var r, base := l.libs[k].dyn.varRelocs[t], l.libs[k].base;
      && LoadWord(m1, Wrap(base + r.offset)) == Wrap(r.addend)
      && (LoadWord(m1, Wrap(base + r.offset)) == Wrap(base + r.addend) <==> base == 0)
  {
    hide Linked, LoadWord, LibraryRelocations, ExeRelocations, IsLinking;
    var r, base := l.libs[k].dyn.varRelocs[t], l.libs[k].base;
    var rs, got := Tables(l, stale, m1);
    var j := LibraryRelocationAt(l.libs, k, t);
    assert l.Relocations()[|ExeRelocations(l.exe, l.offset)| + j] == LibraryRelocation(r, base);
    RelativeSlot(l, stale, m1, rs, got, |ExeRelocations(l.exe, l.offset)| + j);
    RelativeValue(r, base);
  }

  /** In the executable it holds B + A. */
  lemma ExecutableRelative(l: Link, stale: nat -> Word, m1: Memory, t: nat)
    requires l.After(stale) == Some(m1) && t < |l.exe.varRelocs|
    requires l.exe.varRelocs[t].kind == R_X86_64_RELATIVE && l.exe.varRelocs[t].symbol.value == 0
    requires NotOverwritten(l, t, Wrap(l.offset + l.exe.varRelocs[t].offset), 8)
    ensures var r := l.exe.varRelocs[t]; LoadWord(m1, Wrap(l.offset + r.offset)) == Wrap(l.offset + r.addend)
  {
    var r := l.exe.varRelocs[t];
    var rs, got := Tables(l, stale, m1);
    assert l.Relocations()[t] == ExeRelocation(r, l.offset);
    RelativeHolds(l.memory, l.exe, l.offset, l.libs, l.callback, l.table, stale, rs, got, m1, t);
    RelativeValue(r, l.offset);
  }

  // ---------------------------------------------------------------- COPY

  /** A copied variable holds what its source holds once .bss is cleared, if no earlier store
      meets the source and no later one the variable. */
  lemma CopySlot(l: Link, stale: nat -> Word, m1: Memory, j: nat, s: RuntimeSymbol)
    requires l.After(stale) == Some(m1) && WellSpaced(l)
    requires j < |l.Relocations()| && l.Relocations()[j].kind == R_X86_64_COPY
    requires l.CopySource(j) == Some(s)
    requires GotsAvoid(l, s.value, s.size) && NotStored(l, j, s.value, s.size)
    requires NotOverwritten(l, j, l.Relocations()[j].offset, s.size)
    ensures LoadBytes(m1, l.Relocations()[j].offset, s.size) == LoadBytes(l.Cleared(), s.value, s.size)
  {
    hide WellSpaced, GotsAvoid, Linked, IsLinking, NotStored, NotOverwritten;
    var rs, got := Tables(l, stale, m1);
    CopyThrough(l, stale, m1, rs, got, j, s);
  }

  lemma StillNotStored(l: Link, rs: seq<RuntimeRelocation>, j: nat, s: RuntimeSymbol, a: int, n: int)
    requires |rs| == |l.Relocations()| && forall i :: 0 <= i < |rs| ==> SameTarget(rs[i], l.Relocations()[i])
    requires j < |rs|
    ensures NotStored(l, j, s.value, s.size) ==> SourceUntouched(rs, 0, j, s)
    ensures NotOverwritten(l, j, a, n) ==> LaterAvoid(rs, j, a, n)
  {
    forall i | 0 <= i < |rs| && IsStore(rs[i])
      ensures IsStore(l.Relocations()[i]) && rs[i].offset == l.Relocations()[i].offset
    {
      assert SameTarget(rs[i], l.Relocations()[i]);
    }
  }

  lemma CopyThrough(
    l: Link, stale: nat -> Word, m1: Memory, rs: seq<RuntimeRelocation>, got: seq<RuntimeGotEntry>, j: nat,
    s: RuntimeSymbol)
    requires IsLinking(l, stale, rs, got, m1) && WellSpaced(l)
    requires |rs| == |l.Relocations()| && forall i :: 0 <= i < |rs| ==> SameTarget(rs[i], l.Relocations()[i])
    requires j < |rs| && l.Relocations()[j].kind == R_X86_64_COPY && l.CopySource(j) == Some(s)
    requires GotsAvoid(l, s.value, s.size) && NotStored(l, j, s.value, s.size)
    requires NotOverwritten(l, j, l.Relocations()[j].offset, s.size)
    ensures LoadBytes(m1, l.Relocations()[j].offset, s.size) == LoadBytes(l.Cleared(), s.value, s.size)
  {
    PatchesMiss(l, stale, m1, rs, got, s.value, s.size);
    StillNotStored(l, rs, j, s, rs[j].offset, s.size);
    assert SameTarget(rs[j], l.Relocations()[j]);
    hide AllRelocations, AllSymbols, AllGots, Layout, Linking, GotsAvoid, NotStored, SourceUntouched, FindSymbol;
    CopyHolds(l.memory, l.exe, l.offset, l.libs, l.callback, l.table, stale, rs, got, m1, j, s);
  }

  // ---------------------------------------------------------------- the contents of a source

  predicate InBss(libs: seq<SharedObject>, x: int) {
    exists i | 0 <= i < |libs| :: BssCovers(libs[i], x)
  }

  predicate BssCovers(lib: SharedObject, x: int) {
    lib.bss.Some? && lib.bss.value.0 <= x < lib.bss.value.0 + lib.bss.value.1
  }

  /** Clearing puts zeros into the .bss sections and changes nothing else. */
  lemma {:induction false} ClearedByte(m: Memory, libs: seq<SharedObject>, x: int)
    ensures ByteAt(Apply(m, BssPatches(libs)), x) == if InBss(libs, x) then 0 else ByteAt(m, x)
  {
    hide Apply, InBss, ByteAt;
    if libs == [] {
      NothingCleared(m, x);
    } else {
      var n := |libs| - 1;
      ClearedByte(m, libs[..n], x);
      InBssLast(libs, x);
      if libs[n].bss.Some? {
        ClearedNext(m, BssPatches(libs[..n]), libs[n].bss.value.0, libs[n].bss.value.1, x);
      }
    }
  }

  lemma NothingCleared(m: Memory, x: int)
    ensures Apply(m, []) == m && !InBss([], x)
  {
  }

  lemma ClearedNext(m: Memory, ps: seq<Patch>, at: int, n: nat, x: int)
    ensures ByteAt(Apply(m, ps + [Patch(at, Zeros(n))]), x)
         == if at <= x < at + n then 0 else ByteAt(Apply(m, ps), x)
  {
    var more := ps + [Patch(at, Zeros(n))];
    assert more[..|more| - 1] == ps;
    assert Apply(m, more) == WriteBytes(Apply(m, ps), at, Zeros(n));
  }

  lemma InBssLast(libs: seq<SharedObject>, x: int)
    requires libs != []
    ensures InBss(libs, x) <==> InBss(libs[..|libs| - 1], x) || BssCovers(libs[|libs| - 1], x)
  {
    var n := |libs| - 1;
    if i :| 0 <= i < |libs| && BssCovers(libs[i], x) {
      assert i < n ==> BssCovers(libs[..n][i], x);
    }
    if i :| 0 <= i < n && BssCovers(libs[..n][i], x) {
      assert BssCovers(libs[i], x);
    }
  }

  lemma ClearedBytes(l: Link, a: int, n: nat)
    ensures (forall x :: a <= x < a + n ==> InBss(l.libs, x)) ==> LoadBytes(l.Cleared(), a, n) == Zeros(n)
    ensures (forall x :: a <= x < a + n ==> !InBss(l.libs, x)) ==>
      LoadBytes(l.Cleared(), a, n) == LoadBytes(l.memory, a, n)
  {
    hide InBss, Apply, BssPatches;
    forall x ensures ByteAt(l.Cleared(), x) == if InBss(l.libs, x) then 0 else ByteAt(l.memory, x) {
      ClearedByte(l.memory, l.libs, x);
    }
  }

  /** A variable of a library's .bss section arrives as zeros. */
  lemma CopyOfBss(l: Link, stale: nat -> Word, m1: Memory, j: nat, s: RuntimeSymbol)
    requires l.After(stale) == Some(m1) && WellSpaced(l)
    requires j < |l.Relocations()| && l.Relocations()[j].kind == R_X86_64_COPY
    requires l.CopySource(j) == Some(s)
    requires GotsAvoid(l, s.value, s.size) && NotStored(l, j, s.value, s.size)
    requires NotOverwritten(l, j, l.Relocations()[j].offset, s.size)
    requires forall x :: s.value <= x < s.value + s.size ==> InBss(l.libs, x)
    ensures LoadBytes(m1, l.Relocations()[j].offset, s.size) == Zeros(s.size)
  {
    hide WellSpaced, GotsAvoid, Linked, NotStored, NotOverwritten, InBss, LoadBytes;
    CopySlot(l, stale, m1, j, s);
    ClearedBytes(l, s.value, s.size);
  }

  /** A variable outside of all .bss sections arrives with the bytes it had before the link. */
  lemma CopyOfData(l: Link, stale: nat -> Word, m1: Memory, j: nat, s: RuntimeSymbol)
    requires l.After(stale) == Some(m1) && WellSpaced(l)
    requires j < |l.Relocations()| && l.Relocations()[j].kind == R_X86_64_COPY
    requires l.CopySource(j) == Some(s)
    requires GotsAvoid(l, s.value, s.size) && NotStored(l, j, s.value, s.size)
    requires NotOverwritten(l, j, l.Relocations()[j].offset, s.size)
    requires forall x :: s.value <= x < s.value + s.size ==> !InBss(l.libs, x)
    ensures LoadBytes(m1, l.Relocations()[j].offset, s.size) == LoadBytes(l.memory, s.value, s.size)
  {
    hide WellSpaced, GotsAvoid, Linked, NotStored, NotOverwritten, InBss, LoadBytes;
    CopySlot(l, stale, m1, j, s);
    ClearedBytes(l, s.value, s.size);
  }

  // ---------------------------------------------------------------- where a source is found
  /** The executable defines the variable of its COPY relocation `r` at the relocated slot and nowhere else,
      and no library's definition is recorded with the slot's address, relocated or not. */
  predicate DefinesSlotOnly(l: Link, r: Relocation) {
    && 0 < r.offset && l.offset + r.offset < WORD_LIMIT
    && (exists i | 0 <= i < |l.exe.symbols| ::
          l.exe.symbols[i].name == r.symbol.name && l.exe.symbols[i].value == r.offset)
    && (forall i | 0 <= i < |l.exe.symbols| && l.exe.symbols[i].name == r.symbol.name && l.exe.symbols[i].value != 0 ::
          l.exe.symbols[i].value == r.offset)
    && (forall s | s in LibrarySymbols(l.libs) && s.name == r.symbol.name ::
          s.value != r.offset && s.value != l.offset + r.offset)
  }

  /** A COPY relocation copies from the first library definition exactly when the executable is not relocated;
      otherwise the executable's own symbol, at its unrelocated address, is found first. */
  lemma CopySourceIsLibrary(l: Link, t: nat)
    requires t < |l.exe.varRelocs| && DefinesSlotOnly(l, l.exe.varRelocs[t])
    ensures var r := l.exe.varRelocs[t];
      && t < |l.Relocations()| && l.Relocations()[t].offset == l.offset + r.offset
      && (l.CopySource(t) == FindSymbol(LibrarySymbols(l.libs), r.symbol.name, 0, 0) <==> l.offset == 0)
      && (l.offset != 0 ==> l.CopySource(t).Some? && l.CopySource(t).value.value == r.offset)
  {
    var r := l.exe.varRelocs[t];
    var name, slot := r.symbol.name, l.offset + r.offset;
    var own := SymbolsOf(l.exe, 0);
    assert Wrap(slot) == slot;
    assert l.Relocations()[t] == ExeRelocation(r, l.offset);
    assert l.Symbols() == own + LibrarySymbols(l.libs);
    forall i | 0 <= i < |own| ensures own[i].name == l.exe.symbols[i].name && own[i].value == l.exe.symbols[i].value {
      RecordedAtZero(l, i);
    }
    if l.offset == 0 {
      FindInSecond(own, LibrarySymbols(l.libs), name, slot, 0);
      IgnoredUnused(LibrarySymbols(l.libs), name, slot, 0);
    } else {
      OwnSymbolFound(l, own, name, slot, r.offset);
      if FindSymbol(LibrarySymbols(l.libs), name, 0, 0).Some? {
        var i := FindSymbolFound(LibrarySymbols(l.libs), name, 0, 0);
        assert LibrarySymbols(l.libs)[i] in LibrarySymbols(l.libs);
      }
    }
  }

  lemma OwnSymbolFound(l: Link, own: seq<RuntimeSymbol>, name: string, slot: Word, value: Word)
    requires own <= l.Symbols() && 0 < value != slot
    requires exists i :: 0 <= i < |own| && own[i].name == name && own[i].value == value
    requires forall i :: 0 <= i < |own| && own[i].name == name && own[i].value != 0 ==> own[i].value == value
    ensures FindSymbol(l.Symbols(), name, slot, 0).Some?
    ensures FindSymbol(l.Symbols(), name, slot, 0).value.value == value
  {
    var i :| 0 <= i < |own| && own[i].name == name && own[i].value == value;
    var first := FirstMatch(l.Symbols(), name, slot, i);
    assert l.Symbols()[first] == own[first];
    FindSymbolIs(l.Symbols(), name, slot, 0, first);
  }

  lemma {:induction false} FirstMatch(symbols: seq<RuntimeSymbol>, name: string, ignored: Word, i: nat)
    returns (first: nat)
    requires i < |symbols| && Matches(symbols[i], name, ignored)
    ensures first <= i && Matches(symbols[first], name, ignored)
    ensures forall j :: 0 <= j < first ==> !Matches(symbols[j], name, ignored)
  {
    first := 0;
    while !Matches(symbols[first], name, ignored)
      invariant first <= i && forall j :: 0 <= j < first ==> !Matches(symbols[j], name, ignored)
      decreases i - first
    {
      first := first + 1;
    }
  }

  // ---------------------------------------------------------------- behind a short variable

  /** Behind a shorter variable, memory holds what the uninitialised local did. */
  lemma CopyLeavesTail(l: Link, stale: nat -> Word, m1: Memory, j: nat, s: RuntimeSymbol, x: int)
    requires l.After(stale) == Some(m1) && j < |l.Relocations()| && l.Relocations()[j].kind == R_X86_64_COPY
    requires l.CopySource(j) == Some(s) && NotOverwritten(l, j, x, 1)
    requires l.Relocations()[j].offset + s.size <= x < l.Relocations()[j].offset + 8
    ensures x in m1 && m1[x] == StaleByte(stale(j), l.Relocations()[j].offset, x)
  {
    hide StaleByte, Linked, IsLinking, NotOverwritten;
    var rs, got := Tables(l, stale, m1);
    TailThrough(l, stale, m1, rs, got, j, s, x);
  }

  lemma TailThrough(
    l: Link, stale: nat -> Word, m1: Memory, rs: seq<RuntimeRelocation>, got: seq<RuntimeGotEntry>, j: nat,
    s: RuntimeSymbol, x: int)
    requires IsLinking(l, stale, rs, got, m1)
    requires |rs| == |l.Relocations()| && forall i :: 0 <= i < |rs| ==> SameTarget(rs[i], l.Relocations()[i])
    requires j < |rs| && l.Relocations()[j].kind == R_X86_64_COPY
    requires l.CopySource(j) == Some(s) && NotOverwritten(l, j, x, 1)
    requires l.Relocations()[j].offset + s.size <= x < l.Relocations()[j].offset + 8
    ensures x in m1 && m1[x] == StaleByte(stale(j), l.Relocations()[j].offset, x)
  {
    StillNotStored(l, rs, j, s, x, 1);
    assert SameTarget(rs[j], l.Relocations()[j]);
    hide StaleByte, AllRelocations, AllSymbols, AllGots, FindSymbol, AfterGot, LaterAvoid;
    TailStored(AfterGot(l.memory, l.libs, got), rs, 0, l.Symbols(), stale, m1, j, s, x);
  }

  // The bytes behind the variable, up to the eighth one of the slot, are those from before the load.
  ghost predicate KeepsNeighbours(l: Link, stale: nat -> Word, j: nat, size: nat)
    requires j < |l.Relocations()|
  {
    match l.After(stale)
    case None => true
    case Some(m1) =>
      var slot := l.Relocations()[j].offset;
      forall x :: slot + size <= x < slot + 8 ==> x in m1 && x in l.memory && m1[x] == l.memory[x]
  }

  function AllClear(k: nat): Word {
    0
  }

  function AllSet(k: nat): Word {
    WORD_LIMIT - 1
  }

  lemma StaleBytes(slot: int, x: int)
    requires slot <= x < slot + 8
    ensures StaleByte(0, slot, x) == 0 && StaleByte(WORD_LIMIT - 1, slot, x) == 0xff
  {
    LowBytes(8);
    assert WORD_LIMIT == Pow(0x100, 8) by { WordFits(); }
  }

  lemma {:induction false} LowBytes(n: nat)
    ensures Pow(0x100, n) > 0
    ensures LeBytes(0, n) == Zeros(n) && LeBytes(Pow(0x100, n) - 1, n) == seq(n, _ => 0xff)
  {
    if n > 0 {
      LowBytes(n - 1);
      var p := Pow(0x100, n - 1);
      AllOnes(p);
      assert Pow(0x100, n) == 0x100 * p;
      assert LeBytes(0, n) == [0] + Zeros(n - 1) == Zeros(n);
      assert LeBytes(Pow(0x100, n) - 1, n) == [0xff] + seq(n - 1, _ => 0xff) == seq(n, _ => 0xff);
    }
  }

  lemma AllOnes(p: nat)
    requires p > 0
    ensures (0x100 * p - 1) % 0x100 == 0xff && (0x100 * p - 1) / 0x100 == p - 1
  {
    assert 0x100 * p - 1 == 0x100 * (p - 1) + 0xff;
  }

  /** Two links that differ in the local alone differ in a byte behind a short variable. */
  lemma TailVaries(l: Link, stale: nat -> Word, j: nat, s: RuntimeSymbol, x: int)
    requires l.After(stale).Some? && j < |l.Relocations()| && l.Relocations()[j].kind == R_X86_64_COPY
    requires l.CopySource(j) == Some(s) && NotOverwritten(l, j, x, 1)
    requires l.Relocations()[j].offset + s.size <= x < l.Relocations()[j].offset + 8
    ensures l.After(AllClear).Some? && x in l.After(AllClear).value && l.After(AllClear).value[x] == 0
    ensures l.After(AllSet).Some? && x in l.After(AllSet).value && l.After(AllSet).value[x] == 0xff
  {
    hide StaleByte, Linked, NotOverwritten, Linkable;
    LinkSucceeds(l, stale);
    LinkSucceeds(l, AllClear);
    LinkSucceeds(l, AllSet);
    CopyLeavesTail(l, AllClear, l.After(AllClear).value, j, s, x);
    CopyLeavesTail(l, AllSet, l.After(AllSet).value, j, s, x);
    StaleBytes(l.Relocations()[j].offset, x);
  }

  /** A COPY relocation leaves the bytes behind its variable alone, whatever the uninitialised local holds,
      exactly when the variable has eight bytes. */
  lemma CopyKeepsNeighbours(l: Link, j: nat, s: RuntimeSymbol, stale: nat -> Word)
    requires l.After(stale).Some? && j < |l.Relocations()| && l.Relocations()[j].kind == R_X86_64_COPY
    requires l.CopySource(j) == Some(s) && NotOverwritten(l, j, l.Relocations()[j].offset, 8)
    ensures (forall any: nat -> Word :: KeepsNeighbours(l, any, j, s.size)) <==> s.size == 8
  {
    hide Linked, FindSymbol;
    LinkSucceeds(l, stale);
    assert Linkable(l, l.Relocations()[j]);
    if s.size < 8 {
      TailVaries(l, stale, j, s, l.Relocations()[j].offset + s.size);
      assert !KeepsNeighbours(l, AllClear, j, s.size) || !KeepsNeighbours(l, AllSet, j, s.size);
    }
  }

  // ---------------------------------------------------------------- variables side by side

  /** The bytes that a store means to set. */
  function VariableSize(l: Link, i: nat): nat
    requires i < |l.Relocations()|
  {
    if l.Relocations()[i].kind == R_X86_64_COPY && l.CopySource(i).Some? then l.CopySource(i).value.size else 8
  }

  // No later variable lies on that of relocation `j`.
  predicate LaterVariablesApart(l: Link, j: nat, n: nat)
    requires j < |l.Relocations()|
  {
    forall i | j < i < |l.Relocations()| && IsStore(l.Relocations()[i]) ::
      Apart(l.Relocations()[i].offset, VariableSize(l, i), l.Relocations()[j].offset, n)
  }

  ghost predicate Arrives(l: Link, stale: nat -> Word, j: nat, s: RuntimeSymbol)
    requires j < |l.Relocations()|
  {
    match l.After(stale)
    case None => true
    case Some(m1) => LoadBytes(m1, l.Relocations()[j].offset, s.size) == LoadBytes(l.Cleared(), s.value, s.size)
  }

  lemma LastMeeting(rs: seq<RuntimeRelocation>, j: nat, a: int, n: int) returns (i: nat)
    requires !LaterAvoid(rs, j, a, n)
    ensures j < i < |rs| && IsStore(rs[i]) && !Apart(rs[i].offset, 8, a, n) && LaterAvoid(rs, i, a, n)
  {
    i := |rs| - 1;
    while !(IsStore(rs[i]) && !Apart(rs[i].offset, 8, a, n))
      invariant j < i < |rs| && LaterAvoid(rs, i, a, n)
      decreases i
    {
      if i == j + 1 {
        assert LaterAvoid(rs, j, a, n);
      }
      i := i - 1;
    }
  }

  /** Among variables that do not overlap, one keeps its initial value, whatever the uninitialised local holds,
      exactly when no later store of eight bytes meets it: of two four-byte variables side by side the lower one
      must be copied first. */
  lemma CopyArrives(l: Link, stale: nat -> Word, j: nat, s: RuntimeSymbol)
    requires l.After(stale).Some? && WellSpaced(l)
    requires j < |l.Relocations()| && l.Relocations()[j].kind == R_X86_64_COPY
    requires l.CopySource(j) == Some(s) && 0 < s.size && LaterVariablesApart(l, j, s.size)
    requires GotsAvoid(l, s.value, s.size) && NotStored(l, j, s.value, s.size)
    ensures (forall any: nat -> Word :: Arrives(l, any, j, s))
            <==> NotOverwritten(l, j, l.Relocations()[j].offset, s.size)
  {
    hide Linked, WellSpaced, GotsAvoid, NotStored, FindSymbol, AllRelocations, AllSymbols, LoadBytes;
    var slot := l.Relocations()[j].offset;
    if NotOverwritten(l, j, slot, s.size) {
      forall any: nat -> Word ensures Arrives(l, any, j, s) {
        if l.After(any).Some? {
          CopySlot(l, any, l.After(any).value, j, s);
        }
      }
    } else {
      var i := LastMeeting(l.Relocations(), j, slot, s.size);
      var source := l.CopySource(i).value;
      assert NotOverwritten(l, i, slot, 1);
      TailVaries(l, stale, i, source, slot);
      FirstByte(l.After(AllClear).value, slot, s.size);
      FirstByte(l.After(AllSet).value, slot, s.size);
      assert !Arrives(l, AllClear, j, s) || !Arrives(l, AllSet, j, s);
    }
  }

  lemma FirstByte(m: Memory, a: int, n: nat)
    requires n > 0 && a in m
    ensures LoadBytes(m, a, n)[0] == m[a]
  {
  }

  // ---------------------------------------------------------------- a copied pointer

  /** A copied pointer agrees with the library's own one, which a later RELATIVE relocation sets, exactly when
      it held the relocated value before. */
  lemma CopiedPointer(l: Link, stale: nat -> Word, m1: Memory, j: nat, s: RuntimeSymbol, i: nat)
    requires l.After(stale) == Some(m1) && WellSpaced(l)
    requires j < i < |l.Relocations()| && l.Relocations()[j].kind == R_X86_64_COPY
    requires l.CopySource(j) == Some(s) && s.size == 8
    requires GotsAvoid(l, s.value, 8) && NotStored(l, j, s.value, 8)
    requires NotOverwritten(l, j, l.Relocations()[j].offset, 8) && NotOverwritten(l, i, s.value, 8)
    requires l.Relocations()[i].kind == R_X86_64_RELATIVE && l.Relocations()[i].offset == s.value
    ensures var r := l.Relocations()[i];
      && LoadWord(m1, s.value) == Wrap(r.value + r.addend)
      && (LoadWord(m1, l.Relocations()[j].offset) == LoadWord(m1, s.value)
          <==> LoadWord(l.Cleared(), s.value) == Wrap(r.value + r.addend))
  {
    hide WellSpaced, GotsAvoid, Linked, NotStored, NotOverwritten, Apply;
    CopySlot(l, stale, m1, j, s);
    var rs, got := Tables(l, stale, m1);
    RelativeSlot(l, stale, m1, rs, got, i);
  }

  lemma RelativeSlot(
    l: Link, stale: nat -> Word, m1: Memory, rs: seq<RuntimeRelocation>, got: seq<RuntimeGotEntry>, i: nat)
    requires IsLinking(l, stale, rs, got, m1)
    requires i < |l.Relocations()| && l.Relocations()[i].kind == R_X86_64_RELATIVE
    requires NotOverwritten(l, i, l.Relocations()[i].offset, 8)
    ensures LoadWord(m1, l.Relocations()[i].offset) == Wrap(l.Relocations()[i].value + l.Relocations()[i].addend)
  {
    RelativeHolds(l.memory, l.exe, l.offset, l.libs, l.callback, l.table, stale, rs, got, m1, i);
  }
}
