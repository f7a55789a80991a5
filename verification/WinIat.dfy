/** Rewriting the import address tables of the loaded images: every slot gets its runtime
    value, and every function import gets a trampoline in the page of its image. */
module WinIat {
  import opened Words
  import opened AddressSpace
  import opened MemoryRegions
  import opened RegionMapping
  import opened WinImages

  // ---------------------------------------------------------------- lookups

  function ObjectNamed(objs: seq<WinRuntimeObject>, name: string): Option<WinRuntimeObject> {
    if objs == [] then None
    else if objs[0].name == name then Some(objs[0])
    else ObjectNamed(objs[1..], name)
  }

  function SymbolNamed(symbols: seq<WinSymbol>, name: string): Option<WinSymbol> {
    if symbols == [] then None
    else if symbols[0].name == name then Some(symbols[0])
    else SymbolNamed(symbols[1..], name)
  }

  method FindRuntimeObject(objs: seq<WinRuntimeObject>, name: string) returns (r: Option<WinRuntimeObject>)
    ensures r == ObjectNamed(objs, name)
  {
    for i := 0 to |objs|
      invariant ObjectNamed(objs, name) == ObjectNamed(objs[i..], name)
    {
      if objs[i].name == name {
        return Some(objs[i]);
      }
      assert objs[i..][1..] == objs[i + 1..];
    }
    return None;
  }

  method FindWinSymbol(symbols: seq<WinSymbol>, name: string) returns (r: Option<WinSymbol>)
    ensures r == SymbolNamed(symbols, name)
  {
    for i := 0 to |symbols|
      invariant SymbolNamed(symbols, name) == SymbolNamed(symbols[i..], name)
    {
      if symbols[i].name == name {
        return Some(symbols[i]);
      }
      assert symbols[i..][1..] == symbols[i + 1..];
    }
    return None;
  }

  /** The first match: no earlier object carries the name. */
  lemma {:induction false} ObjectNamedIsFirst(objs: seq<WinRuntimeObject>, name: string, k: nat)
    requires k < |objs| && objs[k].name == name
    requires forall j :: 0 <= j < k ==> objs[j].name != name
    ensures ObjectNamed(objs, name) == Some(objs[k])
  {
    if k > 0 {
      assert objs[0].name != name;
      forall j | 0 <= j < k - 1 ensures objs[1..][j].name != name {
        assert objs[1..][j] == objs[j + 1];
      }
      ObjectNamedIsFirst(objs[1..], name, k - 1);
    }
  }

  /** So is the symbol found. */
  lemma {:induction false} SymbolNamedIsFirst(symbols: seq<WinSymbol>, name: string, k: nat)
    requires k < |symbols| && symbols[k].name == name
    requires forall j :: 0 <= j < k ==> symbols[j].name != name
    ensures SymbolNamed(symbols, name) == Some(symbols[k])
  {
    if k > 0 {
      assert symbols[0].name != name;
      forall j | 0 <= j < k - 1 ensures symbols[1..][j].name != name {
        assert symbols[1..][j] == symbols[j + 1];
      }
      SymbolNamedIsFirst(symbols[1..], name, k - 1);
    }
  }

  // ---------------------------------------------------------------- the runtime table

  /** The data symbol behind an import, when the exporting library has one. */
  function VariableOf(e: ImportAddressEntry, libs: seq<WinRuntimeObject>): Option<(WinRuntimeObject, WinSymbol)>
    requires e.libName.Some? && e.importName.Some?
  {
    match ObjectNamed(libs, e.libName.value)
    case None => None
    case Some(lib) =>
      match SymbolNamed(lib.pe.symbols, e.importName.value)
      case None => None
      case Some(s) =>
        if s.symbolType != SYMBOL_TYPE_FUNCTION && s.storageClass == SYMBOL_CLASS_EXTERNAL
        then Some((lib, s)) else None
  }

  // Reading past the section header array has no meaning; 0 stands for what is read there.
  function SectionBase(pe: PeData, index: nat): Word {
    if index < |pe.sections| then pe.sections[index].virtualBase else 0
  }

  /** The runtime entry; none when the load fails. An entry with a value that the import directory
      does not name stops the process as well: its null name is passed to `strcmp`. */
  function RuntimeEntry(e: ImportAddressEntry, libs: seq<WinRuntimeObject>, imageBase: Word, regionBase: Word)
    : Option<RuntimeImport>
  {
    var key := Wrap(imageBase + e.key);
    if e.value == 0 then
      Some(RuntimeImport(key, 0, e.libName, e.importName, false))
    else if e.libName.None? || e.importName.None? then
      None
    else if ObjectNamed(libs, e.libName.value).None? && e.libName.value != NTDLL then
      None
    else
      match VariableOf(e, libs)
      case None =>
        Some(RuntimeImport(key, Wrap(regionBase + e.value), e.libName, e.importName, false))
      case Some((lib, s)) =>
        if s.value < 0 then None
        else Some(RuntimeImport(
                    key, Wrap(lib.pe.imageBase + SectionBase(lib.pe, s.sectionIndex) + s.value),
                    e.libName, e.importName, true))
  }

  ghost predicate IsRuntimeTable(
    t: Option<seq<RuntimeImport>>, iat: seq<ImportAddressEntry>,
    libs: seq<WinRuntimeObject>, imageBase: Word, regionBase: Word)
  {
    match t
    case None => exists e :: e in iat && RuntimeEntry(e, libs, imageBase, regionBase) == None
    case Some(table) =>
      && |table| == |iat|
      && forall i :: 0 <= i < |iat| ==> RuntimeEntry(iat[i], libs, imageBase, regionBase) == Some(table[i])
  }

  function RuntimeTable(iat: seq<ImportAddressEntry>, libs: seq<WinRuntimeObject>, imageBase: Word, regionBase: Word)
    : (t: Option<seq<RuntimeImport>>)
    ensures IsRuntimeTable(t, iat, libs, imageBase, regionBase)
  {
    if iat == [] then Some([])
    else
      var n := |iat| - 1;
      match RuntimeTable(iat[..n], libs, imageBase, regionBase)
      case None =>
        assert forall e :: e in iat[..n] ==> e in iat;
        None
      case Some(table) =>
        match RuntimeEntry(iat[n], libs, imageBase, regionBase)
        case None => assert iat[n] in iat; None
        case Some(r) =>
          assert forall i :: 0 <= i < n ==> iat[i] == iat[..n][i];
          Some(table + [r])
  }

  method GetRuntimeImportAddressTable(
    iat: seq<ImportAddressEntry>, libs: seq<WinRuntimeObject>, imageBase: Word, regionBase: Word)
    returns (t: Option<seq<RuntimeImport>>)
    ensures IsRuntimeTable(t, iat, libs, imageBase, regionBase)
  {
    var table: seq<RuntimeImport> := [];
    for i := 0 to |iat|
      invariant |table| == i
      invariant forall j :: 0 <= j < i ==> RuntimeEntry(iat[j], libs, imageBase, regionBase) == Some(table[j])
    {
      var e := iat[i];
      var key := Wrap(imageBase + e.key);
      if e.value == 0 {
        table := table + [RuntimeImport(key, 0, e.libName, e.importName, false)];
        continue;
      }
      if e.libName == None || e.importName == None {
        assert RuntimeEntry(iat[i], libs, imageBase, regionBase) == None;
        return None;
      }
      var symbol: Option<WinSymbol> := None;
      var lib := FindRuntimeObject(libs, e.libName.value);
      if lib == None && e.libName.value != NTDLL {
        assert RuntimeEntry(iat[i], libs, imageBase, regionBase) == None;
        return None;
      }
      if lib.Some? {
        symbol := FindWinSymbol(lib.value.pe.symbols, e.importName.value);
      }
      var value := Wrap(regionBase + e.value);
      var isVariable := false;
      if symbol.Some? {
        isVariable := symbol.value.symbolType != SYMBOL_TYPE_FUNCTION
        && symbol.value.storageClass == SYMBOL_CLASS_EXTERNAL;
        if isVariable {
          if symbol.value.value < 0 {
            assert RuntimeEntry(iat[i], libs, imageBase, regionBase) == None;
            return None;
          }
          value := Wrap(lib.value.pe.imageBase + SectionBase(lib.value.pe, symbol.value.sectionIndex)
                        + symbol.value.value);
        }
      }
      assert isVariable <==> VariableOf(e, libs).Some?;
      var entry := RuntimeImport(key, value, e.libName, e.importName, isVariable);
      assert RuntimeEntry(e, libs, imageBase, regionBase) == Some(entry);
      table := table + [entry];
    }
    return Some(table);
  }

  /** The relation between an import address table and its runtime table is a function. */
  lemma RuntimeTableUnique(
    t: Option<seq<RuntimeImport>>, iat: seq<ImportAddressEntry>,
    libs: seq<WinRuntimeObject>, imageBase: Word, regionBase: Word)
    requires IsRuntimeTable(t, iat, libs, imageBase, regionBase)
    ensures t == RuntimeTable(iat, libs, imageBase, regionBase)
  {
    var u := RuntimeTable(iat, libs, imageBase, regionBase);
    if t.Some? && u.Some? {
      forall i | 0 <= i < |iat| ensures t.value[i] == u.value[i] {
        assert RuntimeEntry(iat[i], libs, imageBase, regionBase) == Some(t.value[i]) == Some(u.value[i]);
      }
      assert t.value == u.value;
    }
  }

  // ---------------------------------------------------------------- trampolines

  /** The union that reinterprets a word as its eight bytes. */
  function Convert(x: Word): seq<Byte> {
    LeBytes(x, 8)
  }

  /** `mov eax, imm32; call eax`, with the low four bytes of the callback address. */
  function TrampolineCode(callback: Word): (code: seq<Byte>)
    ensures |code| == TRAMPOLINE_SIZE
  {
    [0xb8, Convert(callback)[0], Convert(callback)[1], Convert(callback)[2], Convert(callback)[3], 0xff, 0xd0]
  }

  /** The immediate is the exact callback address just when that address fits 32 bits. */
  lemma TrampolineImmediate(callback: Word)
    ensures LeValue(TrampolineCode(callback)[1..5]) == callback <==> callback < UINT32_LIMIT
  {
    WordFits();
    LePrefix(callback, 8, 4);
    assert TrampolineCode(callback)[1..5] == Convert(callback)[..4] == LeBytes(callback, 4);
    LeValueBound(LeBytes(callback, 4));
    if callback < UINT32_LIMIT {
      LeRoundTrip(callback, 4);
    }
  }

  // The callback's own bytes look like the start and the end of the code.
  predicate Coincides(callback: Word) {
    Convert(callback)[0] == 0xff && Convert(callback)[1] == 0xd0 && Convert(callback)[3] == 0xb8
  }

  /** Trampolines at these two addresses can both be intact. */
  predicate Fit(callback: Word, a: int, b: int) {
    a == b || Apart(a, TRAMPOLINE_SIZE, b, TRAMPOLINE_SIZE) || ((b == a + 4 || a == b + 4) && Coincides(callback))
  }

  lemma CodesAgree(callback: Word, d: nat)
    requires 0 < d < TRAMPOLINE_SIZE
    ensures (forall k :: d <= k < TRAMPOLINE_SIZE ==> TrampolineCode(callback)[k] == TrampolineCode(callback)[k - d])
            <==> d == 4 && Coincides(callback)
  {
    var code := TrampolineCode(callback);
    assert code[0] == 0xb8 && code[5] == 0xff && code[6] == 0xd0;
    match d {
      case 1 => assert !(code[1] == code[0] && code[2] == code[1] && code[3] == code[2] && code[4] == code[3]
                         && code[5] == code[4]);
      case 2 => assert !(code[2] == code[0] && code[4] == code[2] && code[6] == code[4]);
      case 3 => assert !(code[3] == code[0] && code[6] == code[3]);
      case 4 => assert code[4] == Convert(callback)[3] && code[1] == Convert(callback)[0]
                         && code[2] == Convert(callback)[1];
      case 5 => assert code[5] != code[0];
      case _ => assert code[6] != code[0];
    }
  }

  lemma BothHold(m: Memory, callback: Word, a: int, b: int)
    requires Holds(m, a, TrampolineCode(callback)) && Holds(m, b, TrampolineCode(callback))
    ensures Fit(callback, a, b)
  {
    var code, d := TrampolineCode(callback), if a < b then b - a else a - b;
    hide TrampolineCode, Coincides;
    var low, high := if a < b then a else b, if a < b then b else a;
    if 0 < d < TRAMPOLINE_SIZE {
      forall k | d <= k < TRAMPOLINE_SIZE ensures code[k] == code[k - d] {
        assert m[low + k] == code[k] && m[high + (k - d)] == code[k - d];
      }
      CodesAgree(callback, d);
    }
  }

  lemma KeptByFit(m: Memory, callback: Word, a: int, b: int)
    requires Holds(m, a, TrampolineCode(callback)) && Fit(callback, a, b)
    ensures Holds(WriteBytes(m, b, TrampolineCode(callback)), a, TrampolineCode(callback))
  {
    var code := TrampolineCode(callback);
    assert Coincides(callback) ==> code[4] == code[0] && code[5] == code[1] && code[6] == code[2];
    hide TrampolineCode, Coincides;
    forall x | a <= x < a + TRAMPOLINE_SIZE ensures WriteBytes(m, b, code)[x] == code[x - a] {
      if b == a + 4 || a == b + 4 {
        assert x - a in {0, 1, 2, 3, 4, 5, 6};
      }
    }
  }

  /** Why function imports must be seven bytes apart: the code written at `b` damages the code at `a` if it
      overlaps it, except for one coincidence at distance four. */
  lemma OverlapDamages(m: Memory, callback: Word, a: int, b: int)
    requires Holds(m, a, TrampolineCode(callback))
    ensures Holds(WriteBytes(m, b, TrampolineCode(callback)), a, TrampolineCode(callback)) <==> Fit(callback, a, b)
  {
    hide TrampolineCode, Fit;
    if Fit(callback, a, b) {
      KeptByFit(m, callback, a, b);
    } else if Holds(WriteBytes(m, b, TrampolineCode(callback)), a, TrampolineCode(callback)) {
      BothHold(WriteBytes(m, b, TrampolineCode(callback)), callback, a, b);
    }
  }

  /** Six bytes apart, for a callback at 0x400000: the last byte of the first trampoline is lost. */
  lemma SixBytesApart(m: Memory)
    ensures var code := TrampolineCode(0x40_0000);
      var m1 := WriteBytes(WriteBytes(m, 0x1000, code), 0x1006, code);
      m1[0x1006] == 0xb8 != 0xd0 == code[6] && !Fit(0x40_0000, 0x1000, 0x1006)
  {
  }

  // ---------------------------------------------------------------- the stores of one table

  function EntryPatches(e: RuntimeImport, callback: Word): seq<Patch> {
    if e.value == 0 then []
    else if e.isVariable then [Patch(e.key, LeBytes(e.value, 8))]
    else [Patch(e.key, LeBytes(e.value, 8)), Patch(e.value, TrampolineCode(callback))]
  }

  function TablePatches(t: seq<RuntimeImport>, callback: Word): seq<Patch> {
    if t == [] then [] else TablePatches(t[..|t| - 1], callback) + EntryPatches(t[|t| - 1], callback)
  }

  function FreshPage(m: Memory, base: int): Memory {
    WriteBytes(m, base, Zeros(PAGE_SIZE))
  }

  /** The region of the trampolines; MAX_TRAMPOLINE_IAT_SIZE is one page. */
  function TableRegion(base: Word): MemoryRegion {
    MemoryRegion(base, Wrap(base + PAGE_SIZE), false, 0, 0, 7)
  }

  /** `map_import_address_table`. */
  function MapTable(m: Memory, t: seq<RuntimeImport>, callback: Word, base: Word): Option<Memory> {
    if callback >= UINT32_LIMIT then None
    else if t == [] then Some(m)
    else if |t| * 8 > PAGE_SIZE then None
    else
      match MapFrom(m, [TableRegion(base)], [], 0)
      case None => None
      case Some(m1) => Some(Apply(m1, TablePatches(t, callback)))
  }

  lemma TableRegionLength(base: Word)
    ensures Wrap(TableRegion(base).end - TableRegion(base).start) == PAGE_SIZE
    ensures MappedLength(TableRegion(base)) == PAGE_SIZE && TableRegion(base).permissions == 4 + 2 + 1
  {
    var over := base + PAGE_SIZE;
    assert Wrap(over) == if over < WORD_LIMIT then over else over - WORD_LIMIT;
  }

  /** Mapping one page succeeds when it is aligned and free. */
  lemma MapsOnePage(m: Memory, base: Word)
    ensures MapFrom(m, [TableRegion(base)], [], 0)
         == if base % PAGE_SIZE == 0 && RangeFree(m, base, PAGE_SIZE) then Some(FreshPage(m, base)) else None
  {
    hide Wrap, MappedLength;
    var r := TableRegion(base);
    TableRegionLength(base);
    assert Mappable(m, r) <==> base % PAGE_SIZE == 0 && RangeFree(m, base, PAGE_SIZE);
    assert Content(r, []) == Zeros(PAGE_SIZE);
    if Mappable(m, r) {
      var m1 := WriteBytes(m, r.start, Content(r, []));
      assert MapFrom(m1, [r], [], 1) == Some(m1);
    }
  }

  /** The page that a successful initialisation has found. */
  lemma TableMapped(m: Memory, t: seq<RuntimeImport>, callback: Word, base: Word, m1: Memory)
    requires MapTable(m, t, callback, base) == Some(m1) && t != []
    ensures callback < UINT32_LIMIT && |t| * 8 <= PAGE_SIZE
    ensures base % PAGE_SIZE == 0 && RangeFree(m, base, PAGE_SIZE)
    ensures m1 == Apply(FreshPage(m, base), TablePatches(t, callback))
  {
    MapsOnePage(m, base);
  }

  function RegionBase(o: WinRuntimeObject): Word {
    Wrap(o.iatSectionBase - o.pe.importSectionBase)
  }

  function InitImage(m: Memory, o: WinRuntimeObject, libs: seq<WinRuntimeObject>, callback: Word): Option<Memory>
  {
    if o.pe.iat == [] then Some(m)
    else
      match RuntimeTable(o.pe.iat, libs, o.pe.imageBase, RegionBase(o))
      case None => None
      case Some(t) => MapTable(m, t, callback, o.iatSectionBase)
  }

  lemma NothingInitialised(m: Memory, o: WinRuntimeObject, libs: seq<WinRuntimeObject>, callback: Word)
    requires o.pe.iat == []
    ensures InitImage(m, o, libs, callback) == Some(m)
  {
  }

  /** What a successful initialisation of an image with import slots has done. */
  lemma InitialisedImage(m: Memory, o: WinRuntimeObject, libs: seq<WinRuntimeObject>, callback: Word, m1: Memory)
    returns (t: seq<RuntimeImport>)
    requires InitImage(m, o, libs, callback) == Some(m1) && o.pe.iat != []
    ensures RuntimeTable(o.pe.iat, libs, o.pe.imageBase, RegionBase(o)) == Some(t) && |t| == |o.pe.iat|
    ensures o.iatSectionBase % PAGE_SIZE == 0 && RangeFree(m, o.iatSectionBase, PAGE_SIZE)
    ensures m1 == Apply(FreshPage(m, o.iatSectionBase), TablePatches(t, callback))
  {
    hide MapTable;
    t := RuntimeTable(o.pe.iat, libs, o.pe.imageBase, RegionBase(o)).value;
    TableMapped(m, t, callback, o.iatSectionBase, m1);
  }

  /** What the initialisation of an image with import slots needs. */
  lemma ImageInitialises(m: Memory, o: WinRuntimeObject, libs: seq<WinRuntimeObject>, callback: Word)
    requires o.pe.iat != []
    ensures InitImage(m, o, libs, callback).Some? <==>
      && callback < UINT32_LIMIT
      && RuntimeTable(o.pe.iat, libs, o.pe.imageBase, RegionBase(o)).Some?
      && |o.pe.iat| * 8 <= PAGE_SIZE
      && o.iatSectionBase % PAGE_SIZE == 0
      && RangeFree(m, o.iatSectionBase, PAGE_SIZE)
  {
    hide MapFrom, RangeFree;
    MapsOnePage(m, o.iatSectionBase);
  }

  /** The libraries from index `k` on are initialised in order; the first failure stops the load,
      and so does a library that is ntdll.dll itself. */
  function InitFrom(m: Memory, libs: seq<WinRuntimeObject>, k: nat, callback: Word): Option<Memory>
    requires k <= |libs|
    decreases |libs| - k
  {
    if k == |libs| then Some(m)
    else if libs[k].name == NTDLL then None
    else
      match InitImage(m, libs[k], libs, callback)
      case None => None
      case Some(m1) => InitFrom(m1, libs, k + 1, callback)
  }

  function InitAll(m: Memory, exe: WinRuntimeObject, libs: seq<WinRuntimeObject>, callback: Word): Option<Memory> {
    match InitImage(m, exe, libs, callback)
    case None => None
    case Some(m1) => InitFrom(m1, libs, 0, callback)
  }
}
