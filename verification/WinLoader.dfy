/** The Windows loader: placing the DLLs' trampoline pages, initialising every import address
    table, and the callback that recovers the imported function from a trampoline's return address. */
module WinLoader {
  import opened Words
  import opened AddressSpace
  import opened ElfTypes
  import opened MemoryRegions
  import opened PeSections
  import opened RegionMapping
  import opened WinImages
  import opened WinIat

  // ---------------------------------------------------------------- loading the DLLs

  /** The last export with the name. */
  function ExportNamed(exports: seq<ExportEntry>, name: string): Option<ExportEntry> {
    if exports == [] then None
    else if exports[|exports| - 1].name == name then Some(exports[|exports| - 1])
    else ExportNamed(exports[..|exports| - 1], name)
  }

  function Recorded(imports: seq<ImportEntry>, pe: PeData): Option<seq<WinRuntimeExport>> {
    if imports == [] then Some([])
    else
      match Recorded(imports[..|imports| - 1], pe)
      case None => None
      case Some(init) =>
        match ExportNamed(pe.exports, imports[|imports| - 1].name)
        case None => None
        case Some(e) => Some(init + [WinRuntimeExport(Wrap(pe.imageBase + e.address), e.name)])
  }

  /** Where the next free trampoline page starts once the library has been placed. */
  function CursorAfter(cursor: int, pe: PeData): int {
    if pe.iat == [] then cursor else cursor + (pe.importSectionBase / PAGE_SIZE + 1) * PAGE_SIZE
  }

  function Cursor(cursor: int, libs: seq<WinRuntimeObject>): int {
    if libs == [] then cursor
    else CursorAfter(Cursor(cursor, libs[..|libs| - 1]), libs[|libs| - 1].pe)
  }

  function PlacedAt(cursor: int, pe: PeData): int {
    if pe.iat == [] then 0 else cursor + pe.importSectionBase
  }

  function LoadedDll(d: ImportDirectoryEntry, files: map<string, PeData>, cursor: int): Option<WinRuntimeObject> {
    if d.libName !in files then None
    else
      var pe := files[d.libName];
      match Recorded(d.imports, pe)
      case None => None
      case Some(exports) => Some(WinRuntimeObject(d.libName, pe, exports, Wrap(PlacedAt(cursor, pe))))
  }

  function LoadedDlls(dir: seq<ImportDirectoryEntry>, files: map<string, PeData>, cursor: int)
    : Option<seq<WinRuntimeObject>>
  {
    if dir == [] then Some([])
    else
      var n := |dir| - 1;
      match LoadedDlls(dir[..n], files, cursor)
      case None => None
      case Some(libs) =>
        match LoadedDll(dir[n], files, Cursor(cursor, libs))
        case None => None
        case Some(lib) => Some(libs + [lib])
  }

  /** Memory with all libraries mapped, one after the other. */
  function ImagesMapped(m: Memory, libs: seq<WinRuntimeObject>): Option<Memory> {
    if libs == [] then Some(m)
    else
      match ImagesMapped(m, libs[..|libs| - 1])
      case None => None
      case Some(m1) => ImageMapped(m1, libs[|libs| - 1].pe, [])
  }

  /** The libraries, and memory with them in place. */
  function DllsLoaded(m: Memory, dir: seq<ImportDirectoryEntry>, files: map<string, PeData>, cursor: int)
    : Option<(seq<WinRuntimeObject>, Memory)>
  {
    match LoadedDlls(dir, files, cursor)
    case None => None
    case Some(libs) =>
      match ImagesMapped(m, libs)
      case None => None
      case Some(m1) => Some((libs, m1))
  }

  // The range that keeps other mappings away while the libraries are loaded.
  const RESERVED_SIZE := 50 * PAGE_SIZE

  function Reserved(m: Memory, base: Word): Memory {
    WriteBytes(m, base, Zeros(RESERVED_SIZE))
  }

  function Released(m: Memory, base: Word): Memory {
    map x | x in m && !(base <= x < base + RESERVED_SIZE) :: m[x]
  }

  // The limit of the import directory parser.
  const MAX_IMPORT_DIRECTORY := 1000

  lemma {:induction false} CursorBound(cursor: nat, libs: seq<WinRuntimeObject>)
    ensures cursor <= Cursor(cursor, libs) <= cursor + |libs| * (UINT32_LIMIT + PAGE_SIZE)
  {
    if libs != [] {
      CursorBound(cursor, libs[..|libs| - 1]);
    }
  }

  // ---------------------------------------------------------------- the callback's lookups

  function LibAtPage(libs: seq<WinRuntimeObject>, page: int): Option<WinRuntimeObject> {
    if libs == [] then None
    else if libs[0].iatSectionBase == page then Some(libs[0])
    else LibAtPage(libs[1..], page)
  }

  /** The key of the first entry with the value; 0 when there is none. */
  function KeyOf(iat: seq<ImportAddressEntry>, value: Word): Word {
    if iat == [] then 0
    else if iat[0].value == value then iat[0].key
    else KeyOf(iat[1..], value)
  }

  function LastNameIn(d: ImportDirectoryEntry, value: Word, n: nat): Option<string>
    requires n <= |d.imports|
  {
    if n == 0 then None
    else if d.imports[n - 1].address == value then Some(d.imports[n - 1].name)
    else LastNameIn(d, value, n - 1)
  }

  /** Library and name of the last import with the address. */
  function LastImport(dir: seq<ImportDirectoryEntry>, value: Word): Option<(string, string)> {
    if dir == [] then None
    else
      var last := dir[|dir| - 1];
      match LastNameIn(last, value, |last.imports|)
      case Some(name) => Some((last.libName, name))
      case None => LastImport(dir[..|dir| - 1], value)
  }

  /** Symbol `k` is the first one with the name. */
  predicate IsFirstSymbol(symbols: seq<RuntimeSymbol>, name: string, k: nat) {
    k < |symbols| && symbols[k].name == name && forall j | 0 <= j < k :: symbols[j].name != name
  }

  function FirstSymbol(symbols: seq<RuntimeSymbol>, name: string, from: nat): (k: Option<nat>)
    requires from <= |symbols| && forall j :: 0 <= j < from ==> symbols[j].name != name
    ensures k.Some? ==> IsFirstSymbol(symbols, name, k.value)
    ensures k == None ==> forall j :: 0 <= j < |symbols| ==> symbols[j].name != name
    decreases |symbols| - from
  {
    if from == |symbols| then None
    else if symbols[from].name == name then Some(from)
    else FirstSymbol(symbols, name, from + 1)
  }

  /** The value of the first symbol with the name; 0 when there is none. */
  function SymbolValue(symbols: seq<RuntimeSymbol>, name: string): (w: Word)
    ensures forall k: nat :: IsFirstSymbol(symbols, name, k) ==> w == symbols[k].value
    ensures w == 0 || exists k: nat :: IsFirstSymbol(symbols, name, k)
  {
    match FirstSymbol(symbols, name, 0)
    case None => 0
    case Some(k) => symbols[k].value
  }

  function ExportIn(exports: seq<WinRuntimeExport>, name: string): Option<Word> {
    if exports == [] then None
    else if exports[0].name == name then Some(exports[0].address)
    else ExportIn(exports[1..], name)
  }

  /** The address recorded for the name by the last library that records it; 0 when none does. */
  function LastRecorded(libs: seq<WinRuntimeObject>, name: string): Word {
    if libs == [] then 0
    else
      match ExportIn(libs[|libs| - 1].exports, name)
      case Some(a) => a
      case None => LastRecorded(libs[..|libs| - 1], name)
  }

  datatype Target = Target(isNtdll: bool, address: Word)

  function NamedTarget(libs: seq<WinRuntimeObject>, ntdll: seq<RuntimeSymbol>, libName: string, name: string)
    : Option<Target>
  {
    var isNtdll := libName == NTDLL;
    var address := if isNtdll then SymbolValue(ntdll, name) else LastRecorded(libs, name);
    if address == 0 then None else Some(Target(isNtdll, address))
  }

  function TargetIn(
    o: WinRuntimeObject, value: Word, libs: seq<WinRuntimeObject>, ntdll: seq<RuntimeSymbol>): Option<Target>
  {
    if KeyOf(o.pe.iat, value) == 0 then None
    else
      match LastImport(o.pe.importDir, value)
      case None => None
      case Some((libName, name)) => NamedTarget(libs, ntdll, libName, name)
  }

  /** What the callback makes of the return address pushed by a trampoline. */
  function CallbackTarget(
    exe: WinRuntimeObject, libs: seq<WinRuntimeObject>, ntdll: seq<RuntimeSymbol>, initialBase: Word,
    trampolineEnd: Word): Option<Target>
  {
    var start := Wrap(trampolineEnd - TRAMPOLINE_SIZE);
    var page := start / PAGE_SIZE * PAGE_SIZE;
    var raw := Wrap(start - initialBase);
    if page == exe.iatSectionBase then TargetIn(exe, raw, libs, ntdll)
    else
      match LibAtPage(libs, page)
      case None => None
      case Some(lib) =>
        var offset := Wrap(lib.iatSectionBase - lib.pe.importSectionBase - initialBase);
        TargetIn(lib, Wrap(raw - offset), libs, ntdll)
  }

  // ---------------------------------------------------------------- the loader

  class Loader {
    var memory: Memory
    var exe: WinRuntimeObject
    var libs: seq<WinRuntimeObject>
    var ntdll: seq<RuntimeSymbol>
    var initialBase: Word
    const callback: Word

    constructor (memory: Memory, exe: WinRuntimeObject, ntdll: seq<RuntimeSymbol>, callback: Word)
      ensures this.memory == memory && this.ntdll == ntdll && this.callback == callback
      ensures this.exe == exe && this.libs == []
    {
      this.memory, this.exe, this.libs, this.ntdll := memory, exe, [], ntdll;
      this.initialBase, this.callback := 0, callback;
    }

    /** `load_dlls`. */
    method LoadDlls(dir: seq<ImportDirectoryEntry>, files: map<string, PeData>, start: Word) returns (ok: bool)
      requires start < ADDRESS_LIMIT && |dir| <= MAX_IMPORT_DIRECTORY
      modifies this`libs, this`memory
      ensures DllsLoaded(old(memory), dir, files, start) == if ok then Some((libs, memory)) else None
    {
      hide CursorAfter, PlacedAt, LoadedDll, ImageMapped;
      libs := [];
      var cursor: Word := start;
      for i := 0 to |dir|
        invariant |libs| == i
        invariant LoadedDlls(dir[..i], files, start) == Some(libs)
        invariant ImagesMapped(old(memory), libs) == Some(memory)
        invariant cursor == Cursor(start, libs)
      {
        assert dir[..i + 1][..i] == dir[..i];
        CursorBound(start, libs);
        var lib, next, after := LoadDll(memory, dir[i], files, cursor);
        if lib == None {
          NotLoaded(dir, files, start, i, libs, old(memory), memory);
          return false;
        }
        assert (libs + [lib.value])[..i] == libs;
        cursor, libs, memory := next, libs + [lib.value], after;
      }
      assert dir[..|dir|] == dir;
      return true;
    }

    method MapImportAddressTable(t: seq<RuntimeImport>, base: Word) returns (ok: bool)
      modifies this`memory
      ensures MapTable(old(memory), t, callback, base) == if ok then Some(memory) else None
    {
      if callback >= UINT32_LIMIT {
        return false;
      }
      if |t| == 0 {
        return true;
      }
      if |t| * 8 > PAGE_SIZE {
        return false;
      }
      hide MapFrom;
      var after;
      ok, after := MapMemoryRegions(memory, [TableRegion(base)], []);
      if !ok {
        return;
      }
      memory := after;
      ghost var mapped := memory;
      for i := 0 to |t|
        invariant memory == Apply(mapped, TablePatches(t[..i], callback))
      {
        assert t[..i + 1][..i] == t[..i];
        ApplyConcat(mapped, TablePatches(t[..i], callback), EntryPatches(t[i], callback));
        ghost var before := memory;
        if t[i].value == 0 {
          continue;
        }
        memory := WriteBytes(memory, t[i].key, LeBytes(t[i].value, 8));
        OnePatch(before, Patch(t[i].key, LeBytes(t[i].value, 8)));
        if t[i].isVariable {
          continue;
        }
        memory := WriteBytes(memory, t[i].value, TrampolineCode(callback));
        TwoPatches(before, Patch(t[i].key, LeBytes(t[i].value, 8)), Patch(t[i].value, TrampolineCode(callback)));
      }
      assert t[..|t|] == t;
      return true;
    }

    method InitializeImportAddressTable(o: WinRuntimeObject) returns (ok: bool)
      modifies this`memory
      ensures InitImage(old(memory), o, libs, callback) == if ok then Some(memory) else None
    {
      if |o.pe.iat| == 0 {
        return true;
      }
      var t := GetRuntimeImportAddressTable(o.pe.iat, libs, o.pe.imageBase, RegionBase(o));
      RuntimeTableUnique(t, o.pe.iat, libs, o.pe.imageBase, RegionBase(o));
      if t == None {
        return false;
      }
      ok := MapImportAddressTable(t.value, o.iatSectionBase);
    }

    /** The part of `main` that maps the executable, behind a region for its headers. */
    method MapExecutable(pe: PeData, headersSize: Dword) returns (ok: bool)
      modifies this`memory
      ensures ExeMapped(old(memory), pe, headersSize) == if ok then Some(memory) else None
    {
      if headersSize > 0x1000 {
        return false;
      }
      var after;
      ok, after := MapImage(memory, pe, [HeaderRegion(pe, headersSize)]);
      if ok {
        memory := after;
      }
    }

    /** The part of `main` from reserving the trampoline region at `base` to the last import address table.
        The region is given back before it is used. */
    method Load(filename: string, pe: PeData, files: map<string, PeData>, base: Word) returns (ok: bool)
      requires base + UINT32_LIMIT + PAGE_SIZE < ADDRESS_LIMIT && |pe.importDir| <= MAX_IMPORT_DIRECTORY
      modifies this
      ensures ntdll == old(ntdll)
      ensures match DllsLoaded(Reserved(old(memory), base), pe.importDir, files, ExeSectionBase(pe, base) + PAGE_SIZE)
              case None => !ok
              case Some((dlls, mapped)) =>
                && libs == dlls
                && exe == WinRuntimeObject(filename, pe, [], ExeSectionBase(pe, base))
                && InitAll(Released(mapped, base), exe, libs, callback) == if ok then Some(memory) else None
      ensures initialBase == base
    {
      hide DllsLoaded, InitAll;
      initialBase := base;
      memory := Reserved(memory, base);
      var exeBase: Word := 0;
      if |pe.iat| != 0 {
        exeBase := base + pe.importSectionBase;
      }
      ok := LoadDlls(pe.importDir, files, exeBase + PAGE_SIZE);
      if !ok {
        return;
      }
      exe := WinRuntimeObject(filename, pe, [], exeBase);
      memory := Released(memory, base);
      ok := InitializeTables();
    }

    method InitializeTables() returns (ok: bool)
      modifies this`memory
      ensures InitAll(old(memory), exe, libs, callback) == if ok then Some(memory) else None
    {
      hide InitImage;
      ok := InitializeImportAddressTable(exe);
      if !ok {
        return;
      }
      ghost var start := memory;
      for i := 0 to |libs|
        invariant InitFrom(start, libs, 0, callback) == InitFrom(memory, libs, i, callback)
      {
        if libs[i].name == NTDLL {
          return false;
        }
        ok := InitializeImportAddressTable(libs[i]);
        if !ok {
          return;
        }
      }
      return true;
    }

    /** The lookup part of `dynamic_callback_windows`. */
    method LookUp(trampolineEnd: Word) returns (r: Option<Target>)
      ensures r == CallbackTarget(exe, libs, ntdll, initialBase, trampolineEnd)
    {
      var start := Wrap(trampolineEnd - TRAMPOLINE_SIZE);
      var page := start / PAGE_SIZE * PAGE_SIZE;
      var raw: int := Wrap(start - initialBase);
      var source: Option<WinRuntimeObject> := None;
      var value: Word := 0;
      if page == exe.iatSectionBase {
        source, value := Some(exe), raw;
      } else {
        for i := 0 to |libs|
          invariant source == None && LibAtPage(libs, page) == LibAtPage(libs[i..], page)
        {
          if libs[i].iatSectionBase == page {
            source := Some(libs[i]);
            var offset := Wrap(libs[i].iatSectionBase - libs[i].pe.importSectionBase - initialBase);
            value := Wrap(raw - offset);
            break;
          }
          assert libs[i..][1..] == libs[i + 1..];
        }
      }
      if source == None {
        return None;
      }
      var key := FindKey(source.value.pe.iat, value);
      if key == 0 {
        return None;
      }
      var import_ := FindImport(source.value.pe.importDir, value);
      if import_ == None {
        return None;
      }
      var (libName, name) := import_.value;
      var address := FindFunction(libName, name);
      return if address == 0 then None else Some(Target(libName == NTDLL, address));
    }

    method FindFunction(libName: string, name: string) returns (address: Word)
      ensures address == if libName == NTDLL then SymbolValue(ntdll, name) else LastRecorded(libs, name)
    {
      address := 0;
      if libName == NTDLL {
        for i := 0 to |ntdll|
          invariant forall j :: 0 <= j < i ==> ntdll[j].name != name
        {
          if ntdll[i].name == name {
            assert IsFirstSymbol(ntdll, name, i);
            return ntdll[i].value;
          }
        }
      } else {
        for i := 0 to |libs|
          invariant address == LastRecorded(libs[..i], name)
        {
          assert libs[..i + 1][..i] == libs[..i];
          var exports := libs[i].exports;
          for j := 0 to |exports|
            invariant ExportIn(exports, name) == ExportIn(exports[j..], name)
            invariant address == LastRecorded(libs[..i], name)
          {
            if exports[j].name == name {
              address := exports[j].address;
              break;
            }
            assert exports[j..][1..] == exports[j + 1..];
          }
        }
        assert libs[..|libs|] == libs;
      }
    }
  }

  /** One turn of the loop of `load_dlls`. */
  method LoadDll(memory: Memory, d: ImportDirectoryEntry, files: map<string, PeData>, cursor: Word)
    returns (lib: Option<WinRuntimeObject>, next: Word, after: Memory)
    requires cursor + UINT32_LIMIT + PAGE_SIZE < WORD_LIMIT
    ensures match LoadedDll(d, files, cursor)
            case None => lib == None
            case Some(l) =>
              match ImageMapped(memory, l.pe, [])
              case None => lib == None
              case Some(m1) => lib == Some(l) && after == m1 && next == CursorAfter(cursor, l.pe)
  {
    hide ImageMapped, CursorAfter, PlacedAt, Recorded;
    next, after := cursor, memory;
    if d.libName !in files {
      return None, next, after;
    }
    var pe := files[d.libName];
    var ok;
    ok, after := MapImage(memory, pe, []);
    if !ok {
      return None, next, after;
    }
    var exports := RecordExports(d.imports, pe);
    if exports == None {
      return None, next, after;
    }
    var iatSectionBase: Word;
    iatSectionBase, next := PlaceTrampolines(cursor, pe);
    lib := Some(WinRuntimeObject(d.libName, pe, exports.value, iatSectionBase));
  }

  method RecordExports(imports: seq<ImportEntry>, pe: PeData) returns (r: Option<seq<WinRuntimeExport>>)
    ensures r == Recorded(imports, pe)
  {
    var exports: seq<WinRuntimeExport> := [];
    for j := 0 to |imports|
      invariant Recorded(imports[..j], pe) == Some(exports)
    {
      assert imports[..j + 1][..j] == imports[..j];
      var found: Option<ExportEntry> := None;
      for k := 0 to |pe.exports|
        invariant found == ExportNamed(pe.exports[..k], imports[j].name)
      {
        assert pe.exports[..k + 1][..k] == pe.exports[..k];
        if imports[j].name == pe.exports[k].name {
          found := Some(pe.exports[k]);
        }
      }
      assert pe.exports[..|pe.exports|] == pe.exports;
      if found == None {
        NotRecorded(imports, pe, j);
        return None;
      }
      exports := exports + [WinRuntimeExport(Wrap(pe.imageBase + found.value.address), found.value.name)];
    }
    assert imports[..|imports|] == imports;
    return Some(exports);
  }

  /** The loop that steps over the pages up to and including the one just placed. */
  method PlaceTrampolines(cursor: Word, pe: PeData) returns (iatSectionBase: Word, next: Word)
    requires cursor + UINT32_LIMIT + PAGE_SIZE < WORD_LIMIT
    ensures iatSectionBase == PlacedAt(cursor, pe)
    ensures next == CursorAfter(cursor, pe)
  {
    iatSectionBase, next := 0, cursor;
    if |pe.iat| != 0 {
      iatSectionBase := cursor + pe.importSectionBase;
      while next <= iatSectionBase
        invariant cursor <= next <= iatSectionBase + PAGE_SIZE
        invariant (next - cursor) % PAGE_SIZE == 0
      {
        next := next + PAGE_SIZE;
      }
    }
  }

  method FindKey(iat: seq<ImportAddressEntry>, value: Word) returns (key: Word)
    ensures key == KeyOf(iat, value)
  {
    key := 0;
    for i := 0 to |iat|
      invariant key == 0 && KeyOf(iat, value) == KeyOf(iat[i..], value)
    {
      if iat[i].value == value {
        return iat[i].key;
      }
      assert iat[i..][1..] == iat[i + 1..];
    }
  }

  method FindImport(dir: seq<ImportDirectoryEntry>, value: Word) returns (r: Option<(string, string)>)
    ensures r == LastImport(dir, value)
  {
    r := None;
    for i := 0 to |dir|
      invariant r == LastImport(dir[..i], value)
    {
      assert dir[..i + 1][..i] == dir[..i];
      ghost var before := r;
      var imports := dir[i].imports;
      for j := 0 to |imports|
        invariant match LastNameIn(dir[i], value, j)
                  case Some(name) => r == Some((dir[i].libName, name))
                  case None => r == before
      {
        if imports[j].address == value {
          r := Some((dir[i].libName, imports[j].name));
        }
      }
    }
    assert dir[..|dir|] == dir;
  }

  // ---------------------------------------------------------------- the result of loading

  function ExeSectionBase(pe: PeData, base: Word): Word
    requires base + UINT32_LIMIT + PAGE_SIZE < ADDRESS_LIMIT
  {
    if pe.iat == [] then 0 else base + pe.importSectionBase
  }

  function HeaderRegion(pe: PeData, headersSize: Dword): MemoryRegion {
    MemoryRegion(pe.imageBase, Wrap(pe.imageBase + headersSize), false, 0, headersSize, 4)
  }

  function ExeMapped(m: Memory, pe: PeData, headersSize: Dword): Option<Memory> {
    if headersSize > 0x1000 then None else ImageMapped(m, pe, [HeaderRegion(pe, headersSize)])
  }

  /** One library that cannot be loaded makes the whole load fail. */
  lemma {:induction false} NotLoaded(
    dir: seq<ImportDirectoryEntry>, files: map<string, PeData>, start: int, i: nat, libs: seq<WinRuntimeObject>,
    m: Memory, mi: Memory)
    requires i < |dir| && LoadedDlls(dir[..i], files, start) == Some(libs) && ImagesMapped(m, libs) == Some(mi)
    requires match LoadedDll(dir[i], files, Cursor(start, libs))
             case None => true
             case Some(lib) => ImageMapped(mi, lib.pe, []) == None
    ensures DllsLoaded(m, dir, files, start) == None
  {
    hide LoadedDll, ImageMapped, Cursor;
    var n := |dir| - 1;
    if i < n {
      assert dir[..n][..i] == dir[..i];
      NotLoaded(dir[..n], files, start, i, libs, m, mi);
    }
    if all :| LoadedDlls(dir, files, start) == Some(all) {
      assert all[..|all| - 1] == LoadedDlls(dir[..n], files, start).value;
    }
  }

  lemma {:induction false} NotRecorded(imports: seq<ImportEntry>, pe: PeData, j: nat)
    requires j < |imports| && ExportNamed(pe.exports, imports[j].name) == None
    ensures Recorded(imports, pe) == None
  {
    if j < |imports| - 1 {
      NotRecorded(imports[..|imports| - 1], pe, j);
    }
  }
}
