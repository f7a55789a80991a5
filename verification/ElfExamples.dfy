/** Small links in which the loader departs from the relocation rules. */
module ElfExamples {
  import opened AddressSpace
  import opened ElfFiles
  import opened ElfLink
  import opened ElfLinked
  import opened ElfLoaded
  import opened ElfTypes
  import opened Words

  const CALLBACK: Word := 0x40_0000
  const TABLE: Word := 0x60_0000
  const BASE: Word := 0x1_0000
  const SLOT: Word := 0x4000

  function ZeroWords(): Memory {
    WriteBytes(WriteBytes(map[], SLOT, Zeros(8)), BASE + 0x20, Zeros(8))
  }

  function CopyOf(name: string): seq<Relocation> {
    [Relocation(SLOT, R_X86_64_COPY, 0, Symbol(name, 0, 0))]
  }

  // ---------------------------------------------------------------- a pointer in a library

  function PointerLibrary(): SharedObject {
    SharedObject(BASE, DynamicData([Symbol("p", 0x20, 8)], [], [],
                                   [Relocation(0x20, R_X86_64_RELATIVE, 0x30, Symbol("", 0, 0))]), None)
  }

  function PointerLink(): Link {
    Link(ZeroWords(), DynamicData([], [], [], CopyOf("p")), 0, [PointerLibrary()], CALLBACK, TABLE)
  }

  lemma PointerTables()
    ensures PointerLink().Symbols() == [RuntimeSymbol(BASE + 0x20, "p", 8)]
    ensures PointerLink().Relocations() == [RuntimeRelocation(SLOT, R_X86_64_COPY, 0, 0, "p"),
                                            RuntimeRelocation(BASE + 0x20, R_X86_64_RELATIVE, 0x30, 0, "")]
    ensures PointerLink().Gots() == [] && BssPatches(PointerLink().libs) == []
  {
    var libs := PointerLink().libs;
    assert libs[..0] == [];
    assert LibrarySymbols(libs) == LibrarySymbols(libs[..0]) + SymbolsOf(libs[0].dyn, BASE);
    assert LibraryRelocations(libs) == LibraryRelocations(libs[..0]) + OneLibraryRelocations(libs[0]);
    assert LibraryGots(libs, CALLBACK, TABLE) == [];
  }

  lemma PointerSpaced()
    ensures WellSpaced(PointerLink())
  {
    PointerTables();
  }

  lemma PointerAvoids()
    ensures var l := PointerLink();
      && |l.Relocations()| == 2 && StoresApart(l.Relocations())
      && GotsAvoid(l, BASE + 0x20, 8) && NotStored(l, 0, BASE + 0x20, 8) && NotOverwritten(l, 0, SLOT, 8)
  {
    PointerTables();
  }

  lemma PointerLoads(stale: nat -> Word)
    ensures PointerLink().After(stale).Some?
  {
    PointerTables();
    PointerSource();
    LinkSucceeds(PointerLink(), stale);
  }

  lemma PointerSource()
    ensures PointerLink().CopySource(0) == Some(RuntimeSymbol(BASE + 0x20, "p", 8))
  {
    PointerTables();
    assert FindSymbol(PointerLink().Symbols(), "p", SLOT, 0) == Some(PointerLink().Symbols()[0]);
  }

  /** The library's pointer holds 0x30, its addend, instead of 0x1_0030; and the executable's copy, taken before,
      holds 0. */
  lemma PointerExample(stale: nat -> Word, m1: Memory)
    requires PointerLink().After(stale) == Some(m1)
    ensures LoadWord(m1, BASE + 0x20) == 0x30 != BASE + 0x30
    ensures LoadWord(m1, SLOT) == 0
  {
    var l := PointerLink();
    PointerTables();
    PointerSpaced();
    PointerSource();
    var s := RuntimeSymbol(BASE + 0x20, "p", 8);
    PointerAvoids();
    hide Linked, WellSpaced, LoadWord, FindSymbol, LoadBytes, AllSymbols, AllRelocations, AllGots;
    hide NotStored, NotOverwritten, GotsAvoid;
    CopySlot(l, stale, m1, 0, s);
    LibraryRelative(l, stale, m1, 0, 0);
    ZeroAt(l.memory, BASE + 0x20);
    SameBytes(m1, SLOT, l.memory, BASE + 0x20);
  }

  lemma ZeroAt(m: Memory, a: int)
    requires forall x :: a <= x < a + 8 ==> x in m && m[x] == 0
    ensures LoadWord(m, a) == 0
  {
    assert LoadBytes(m, a, 8) == Zeros(8) == LeBytes(0, 8);
    HoldsWord(m, a, 0);
  }

  lemma SameBytes(m: Memory, a: int, m': Memory, a': int)
    requires LoadBytes(m, a, 8) == LoadBytes(m', a', 8)
    ensures LoadWord(m, a) == LoadWord(m', a')
  {
  }

  // ---------------------------------------------------------------- a variable of four bytes

  function FourByteLink(): Link {
    Link(ZeroWords(), DynamicData([], [], [], CopyOf("v")), 0,
         [SharedObject(BASE, DynamicData([Symbol("v", 0x20, 4)], [], [], []), None)], CALLBACK, TABLE)
  }

  lemma FourByteTables()
    ensures FourByteLink().Symbols() == [RuntimeSymbol(BASE + 0x20, "v", 4)]
    ensures FourByteLink().Relocations() == [RuntimeRelocation(SLOT, R_X86_64_COPY, 0, 0, "v")]
    ensures FourByteLink().Gots() == []
  {
    var libs := FourByteLink().libs;
    assert libs[..0] == [];
    assert LibrarySymbols(libs) == LibrarySymbols(libs[..0]) + SymbolsOf(libs[0].dyn, BASE);
    assert LibraryRelocations(libs) == LibraryRelocations(libs[..0]) + OneLibraryRelocations(libs[0]);
    assert LibraryGots(libs, CALLBACK, TABLE) == [];
  }

  lemma FourByteSource()
    ensures FourByteLink().CopySource(0) == Some(RuntimeSymbol(BASE + 0x20, "v", 4))
  {
    FourByteTables();
    assert FindSymbol(FourByteLink().Symbols(), "v", SLOT, 0) == Some(FourByteLink().Symbols()[0]);
  }

  lemma FourByteLoads(stale: nat -> Word)
    ensures FourByteLink().After(stale).Some?
  {
    FourByteTables();
    FourByteSource();
    LinkSucceeds(FourByteLink(), stale);
  }

  /** The byte behind the variable was 0 and becomes 0xff when the local held all ones. */
  lemma FourByteExample(m1: Memory)
    requires FourByteLink().After(AllSet) == Some(m1)
    ensures FourByteLink().memory[SLOT + 4] == 0 && SLOT + 4 in m1 && m1[SLOT + 4] == 0xff
  {
    var l := FourByteLink();
    FourByteTables();
    FourByteSource();
    var s := RuntimeSymbol(BASE + 0x20, "v", 4);
    hide Linked, StaleByte, FindSymbol, AllSymbols, AllRelocations, AllGots;
    CopyLeavesTail(l, AllSet, m1, 0, s, SLOT + 4);
    StaleBytes(SLOT, SLOT + 4);
  }

  lemma NoGots(l: Link, a: int, n: int)
    requires l.Gots() == [] && forall r :: r in l.Relocations() ==> !IsGlobDat(r)
    ensures WellSpaced(l) && GotsAvoid(l, a, n)
  {
    hide AllRelocations, AllGots;
  }

  // ---------------------------------------------------------------- two numbers side by side

  const DATA: Relocation := Relocation(SLOT, R_X86_64_COPY, 0, Symbol("data", 0, 0))
  const BSS: Relocation := Relocation(SLOT + 4, R_X86_64_COPY, 0, Symbol("bss", 0, 0))

  function NumbersMemory(): Memory {
    var m := WriteBytes(WriteBytes(map[], SLOT, Zeros(16)), BASE + 0x20, LeBytes(12345, 4));
    WriteBytes(m, BASE + 0x40, [7, 7, 7, 7])
  }

  /** The executable copies an int of the library's .data section and one of its .bss section. */
  function NumbersLink(relocs: seq<Relocation>): Link {
    Link(NumbersMemory(), DynamicData([], [], [], relocs), 0,
         [SharedObject(BASE, DynamicData([Symbol("data", 0x20, 4), Symbol("bss", 0x40, 4)], [], [], []),
                       Some((BASE + 0x40, 4)))], CALLBACK, TABLE)
  }

  const DATA_SOURCE: RuntimeSymbol := RuntimeSymbol(BASE + 0x20, "data", 4)
  const BSS_SOURCE: RuntimeSymbol := RuntimeSymbol(BASE + 0x40, "bss", 4)

  lemma NumbersTables(relocs: seq<Relocation>)
    requires relocs == [DATA, BSS] || relocs == [BSS, DATA]
    ensures var l := NumbersLink(relocs);
      && l.Symbols() == [DATA_SOURCE, BSS_SOURCE] && l.Gots() == [] && |l.Relocations()| == 2
      && l.Relocations()[if relocs[0] == DATA then 0 else 1] == RuntimeRelocation(SLOT, R_X86_64_COPY, 0, 0, "data")
      && l.Relocations()[if relocs[0] == DATA then 1 else 0] == RuntimeRelocation(SLOT + 4, R_X86_64_COPY, 0, 0, "bss")
  {
    var l := NumbersLink(relocs);
    assert l.libs[..0] == [];
    assert LibrarySymbols(l.libs) == LibrarySymbols(l.libs[..0]) + SymbolsOf(l.libs[0].dyn, BASE);
    assert LibraryRelocations(l.libs) == LibraryRelocations(l.libs[..0]) + OneLibraryRelocations(l.libs[0]);
    assert LibraryGots(l.libs, CALLBACK, TABLE) == [];
    assert l.Relocations() == [ExeRelocation(relocs[0], 0), ExeRelocation(relocs[1], 0)];
  }

  lemma NumbersSources(relocs: seq<Relocation>)
    requires relocs == [DATA, BSS] || relocs == [BSS, DATA]
    ensures var l := NumbersLink(relocs);
      && |l.Relocations()| == 2
      && l.CopySource(if relocs[0] == DATA then 0 else 1) == Some(DATA_SOURCE)
      && l.CopySource(if relocs[0] == DATA then 1 else 0) == Some(BSS_SOURCE)
  {
    NumbersTables(relocs);
    var symbols := NumbersLink(relocs).Symbols();
    assert "data"[0] != "bss"[0];
    assert FindSymbol(symbols, "data", SLOT, 0) == Some(symbols[0]);
    FindSymbolIs(symbols, "bss", SLOT + 4, 0, 1);
  }

  /** Copied in this order both ints arrive, whatever the local holds: 12345 and 0. */
  lemma NumbersArrive(stale: nat -> Word, m1: Memory)
    requires NumbersLink([DATA, BSS]).After(stale) == Some(m1)
    ensures LoadBytes(m1, SLOT, 4) == LeBytes(12345, 4) && LoadBytes(m1, SLOT + 4, 4) == Zeros(4)
  {
    var l := NumbersLink([DATA, BSS]);
    NumbersTables([DATA, BSS]);
    NumbersSources([DATA, BSS]);
    NumbersInBss();
    NumbersHeld();
    NumbersSpaced();
    hide Linked, FindSymbol, AllSymbols, AllRelocations, AllGots, LoadBytes, InBss, NumbersMemory, WellSpaced;
    hide NotStored, NotOverwritten, GotsAvoid, LeBytes;
    CopyOfData(l, stale, m1, 0, DATA_SOURCE);
    CopyOfBss(l, stale, m1, 1, BSS_SOURCE);
  }

  lemma NumbersSpaced()
    ensures var l := NumbersLink([DATA, BSS]);
      && WellSpaced(l) && |l.Relocations()| == 2
      && GotsAvoid(l, BASE + 0x20, 4) && NotStored(l, 0, BASE + 0x20, 4) && NotOverwritten(l, 0, SLOT, 4)
      && GotsAvoid(l, BASE + 0x40, 4) && NotStored(l, 1, BASE + 0x40, 4) && NotOverwritten(l, 1, SLOT + 4, 4)
  {
    var l := NumbersLink([DATA, BSS]);
    NumbersTables([DATA, BSS]);
    hide AllSymbols, AllRelocations, AllGots, NumbersMemory, WellSpaced, GotsAvoid, NotStored, NotOverwritten;
    hide NumbersLink;
    TwoSlots(l);
    NoGots(l, BASE + 0x20, 4);
    NoGots(l, BASE + 0x40, 4);
  }

  lemma TwoSlots(l: Link)
    requires |l.Relocations()| == 2 && l.Relocations()[0].offset == SLOT && l.Relocations()[1].offset == SLOT + 4
    ensures NotStored(l, 0, BASE + 0x20, 4) && NotOverwritten(l, 0, SLOT, 4)
    ensures NotStored(l, 1, BASE + 0x40, 4) && NotOverwritten(l, 1, SLOT + 4, 4)
  {
    hide AllRelocations;
  }

  lemma NumbersInBss()
    ensures forall x :: InBss(NumbersLink([]).libs, x) <==> BASE + 0x40 <= x < BASE + 0x44
  {
    forall x ensures InBss(NumbersLink([]).libs, x) <==> BASE + 0x40 <= x < BASE + 0x44 {
      assert InBss(NumbersLink([]).libs, x) <==> BssCovers(NumbersLink([]).libs[0], x);
    }
  }

  lemma NumbersHeld()
    ensures LoadBytes(NumbersMemory(), BASE + 0x20, 4) == LeBytes(12345, 4)
  {
  }

  /** In the other order the second store overwrites the first int with the local's upper bytes. */
  lemma NumberLost(m1: Memory)
    requires NumbersLink([BSS, DATA]).After(AllSet) == Some(m1)
    ensures SLOT + 4 in m1 && m1[SLOT + 4] == 0xff
  {
    var l := NumbersLink([BSS, DATA]);
    NumbersTables([BSS, DATA]);
    NumbersSources([BSS, DATA]);
    hide Linked, StaleByte, FindSymbol, AllSymbols, AllRelocations, AllGots;
    CopyLeavesTail(l, AllSet, m1, 1, DATA_SOURCE, SLOT + 4);
    StaleBytes(SLOT, SLOT + 4);
  }

  lemma NumbersLoad(relocs: seq<Relocation>, stale: nat -> Word)
    requires relocs == [DATA, BSS] || relocs == [BSS, DATA]
    ensures NumbersLink(relocs).After(stale).Some?
  {
    NumbersTables(relocs);
    NumbersSources(relocs);
    hide Linked, FindSymbol, AllSymbols, AllRelocations, AllGots, NumbersMemory, NumbersLink;
    var first := if relocs[0] == DATA then 0 else 1;
    assert first == 0 || first == 1;
    TwoCopiesLoad(NumbersLink(relocs), stale);
  }

  lemma TwoCopiesLoad(l: Link, stale: nat -> Word)
    requires |l.Relocations()| == 2
    requires l.Relocations()[0].kind == R_X86_64_COPY && l.Relocations()[1].kind == R_X86_64_COPY
    requires l.CopySource(0).Some? && l.CopySource(0).value.size <= 8
    requires l.CopySource(1).Some? && l.CopySource(1).value.size <= 8
    ensures l.After(stale).Some?
  {
    hide Linked, FindSymbol, AllSymbols, AllRelocations, AllGots;
    LinkSucceeds(l, stale);
    assert Linkable(l, l.Relocations()[0]) && Linkable(l, l.Relocations()[1]);
  }

  // ---------------------------------------------------------------- a position independent executable

  const OFFSET: Word := 0x7000_0000

  function RelocatedLink(): Link {
    Link(ZeroWords(), DynamicData([Symbol("v", SLOT, 8)], [], [], CopyOf("v")), OFFSET,
         [SharedObject(BASE, DynamicData([Symbol("v", 0x20, 8)], [], [], []), None)], CALLBACK, TABLE)
  }

  /** Its symbol at 0x4000 is recorded there and not at 0x7000_4000; so the COPY relocation of that very slot
      finds it instead of the library's definition. */
  lemma RelocatedExample()
    ensures RelocatedLink().Symbols()[0].value == SLOT != Wrap(OFFSET + SLOT)
    ensures RelocatedLink().Relocations()[0].offset == OFFSET + SLOT
    ensures RelocatedLink().CopySource(0) == Some(RuntimeSymbol(SLOT, "v", 8))
    ensures FindSymbol(LibrarySymbols(RelocatedLink().libs), "v", 0, 0) == Some(RuntimeSymbol(BASE + 0x20, "v", 8))
  {
    var l := RelocatedLink();
    assert l.libs[..0] == [];
    assert LibrarySymbols(l.libs) == LibrarySymbols(l.libs[..0]) + SymbolsOf(l.libs[0].dyn, BASE);
    assert l.Relocations()[0] == ExeRelocation(l.exe.varRelocs[0], OFFSET);
  }

  // ---------------------------------------------------------------- two libraries

  function DefinesF(base: Word): SharedObject {
    SharedObject(base, DynamicData([Symbol("f", 0x10, 8)], [], [], []), None)
  }

  /** Both libraries define f, and the executable has an offset table entry for it. */
  function TwoLibraries(): Link {
    Link(ZeroWords(),
         DynamicData([], [GotEntry(SLOT, 0, false, false)], [],
                     [Relocation(SLOT, R_X86_64_GLOB_DAT, 0, Symbol("f", 0, 0))]),
         0, [DefinesF(BASE), DefinesF(2 * BASE)], CALLBACK, TABLE)
  }

  lemma TwoLibrariesTables()
    ensures TwoLibraries().Relocations() == [RuntimeRelocation(SLOT, R_X86_64_GLOB_DAT, 0, 0, "f")]
    ensures TwoLibraries().Gots() == [RuntimeGotEntry(SLOT, 0, 0)] && WellSpaced(TwoLibraries())
  {
    var l := TwoLibraries();
    var libs := l.libs;
    assert libs[..1] == [libs[0]] && libs[..1][..0] == [];
    assert LibraryRelocations(libs[..1]) == [];
    assert LibraryGots(libs[..1], CALLBACK, TABLE)
        == LibraryGots(libs[..1][..0], CALLBACK, TABLE) + GotOf(libs[0].dyn, BASE, CALLBACK, Cell(TABLE, 1));
    assert LibraryRelocations(libs) == LibraryRelocations(libs[..1]) + OneLibraryRelocations(libs[1]);
    assert LibraryGots(libs, CALLBACK, TABLE)
        == LibraryGots(libs[..1], CALLBACK, TABLE) + GotOf(libs[1].dyn, 2 * BASE, CALLBACK, Cell(TABLE, 2));
    assert l.Relocations() == [ExeRelocation(l.exe.varRelocs[0], 0)];
  }

  lemma FirstOfTwo()
    ensures FirstDefinition(TwoLibraries(), "f", 0, 1, 0) && RecordedAddress(TwoLibraries(), 1, 0) == BASE + 0x10
  {
    var l := TwoLibraries();
    assert Dyn(l, 0).symbols == [] && Dyn(l, 1) == DefinesF(BASE).dyn;
  }

  /** The slot holds the address in the first library, and the link succeeds. */
  lemma FirstLibraryWins(stale: nat -> Word)
    ensures TwoLibraries().After(stale).Some? && LoadWord(TwoLibraries().After(stale).value, SLOT) == BASE + 0x10
  {
    var l := TwoLibraries();
    TwoLibrariesTables();
    FirstOfTwo();
    hide Linked, WellSpaced, FindSymbol, AllSymbols, AllRelocations, AllGots, FirstDefinition, LoadWord;
    hide RecordedAddress;
    FirstIsFound(l, "f", 0, 1, 0);
    assert l.Gots()[0].index == SLOT;
    LinkSucceeds(l, stale);
    GlobDatOfFiles(l, stale, l.After(stale).value, 0, 0, 1, 0);
  }
}
