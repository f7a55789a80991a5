/** A Windows program from its files to a dispatched call: what a successful load establishes, and where a call
    through an import slot of any of its images arrives. */
module WinProgram {
  import opened AddressSpace
  import opened ElfTypes
  import opened PeSections
  import opened WinCall
  import opened WinDispatch
  import opened WinIat
  import opened WinImages
  import opened WinInstall
  import opened WinLoader
  import opened Words
  import opened X64

  // ---------------------------------------------------------------- images in memory

  ghost predicate InMemory(m: Memory, pe: PeData) {
    forall k: nat | k < |pe.sections| ::
      SectionExtent(pe, k) > 0 && RangeMapped(m, SectionStart(pe, k), SectionExtent(pe, k))
  }

  ghost predicate FreeIn(m: Memory, pe: PeData) {
    forall k: nat | k < |pe.sections| ::
      SectionExtent(pe, k) > 0 && RangeFree(m, SectionStart(pe, k), SectionExtent(pe, k))
  }

  ghost predicate Grows(m: Memory, m1: Memory) {
    forall x :: x in m ==> x in m1 && m1[x] == m[x]
  }

  lemma StaysInMemory(m: Memory, m1: Memory, pe: PeData)
    requires InMemory(m, pe) && Grows(m, m1)
    ensures InMemory(m1, pe)
  {
    forall k: nat | k < |pe.sections| ensures RangeMapped(m1, SectionStart(pe, k), SectionExtent(pe, k)) {
      assert RangeMapped(m, SectionStart(pe, k), SectionExtent(pe, k));
    }
  }

  lemma WasFree(m: Memory, m1: Memory, pe: PeData)
    requires FreeIn(m1, pe) && Grows(m, m1)
    ensures FreeIn(m, pe)
  {
    forall k: nat | k < |pe.sections| ensures RangeFree(m, SectionStart(pe, k), SectionExtent(pe, k)) {
      assert RangeFree(m1, SectionStart(pe, k), SectionExtent(pe, k));
    }
  }

  /** An image that is in memory keeps apart from one that can still be mapped. */
  lemma MappedAndFreeApart(m: Memory, o: WinRuntimeObject, p: WinRuntimeObject)
    requires InMemory(m, o.pe) && FreeIn(m, p.pe)
    ensures ImagesApart(o, p)
  {
    forall i: nat, j: nat | i < |o.pe.sections| && j < |p.pe.sections| ensures SectionsApart(o, i, p, j) {
      MappedApart(m, SectionStart(o.pe, i), SectionExtent(o.pe, i), SectionStart(p.pe, j), SectionExtent(p.pe, j));
      PageUpNear(o.pe.sections[i].virtualSize);
      PageUpNear(p.pe.sections[j].virtualSize);
    }
  }

  lemma ImageComesIn(m: Memory, pe: PeData, m1: Memory)
    requires ImageMapped(m, pe, []) == Some(m1) && ImageInSpace(pe)
    ensures InMemory(m1, pe) && FreeIn(m, pe) && Grows(m, m1)
  {
    hide ImageMapped, SectionExtent, RangeMapped, RangeFree;
    forall k: nat | k < |pe.sections|
      ensures SectionExtent(pe, k) > 0 && RangeFree(m, SectionStart(pe, k), SectionExtent(pe, k))
      ensures RangeMapped(m1, SectionStart(pe, k), SectionExtent(pe, k))
    {
      ImageMaps(m, pe, [], m1, k);
    }
    forall x | x in m ensures x in m1 && m1[x] == m[x] {
      ImageMapKeeps(m, pe, [], m1, x);
    }
  }

  // Every library is in memory, none of it was before, and no two of them overlap.
  ghost predicate AllComeIn(m: Memory, libs: seq<WinRuntimeObject>, m1: Memory) {
    && Grows(m, m1)
    && (forall i | 0 <= i < |libs| :: InMemory(m1, libs[i].pe) && FreeIn(m, libs[i].pe))
    && (forall i, j | 0 <= i < j < |libs| :: ImagesApart(libs[i], libs[j]))
  }

  lemma {:induction false} ImagesComeIn(m: Memory, libs: seq<WinRuntimeObject>, m1: Memory)
    requires ImagesMapped(m, libs) == Some(m1) && forall i :: 0 <= i < |libs| ==> ImageInSpace(libs[i].pe)
    ensures AllComeIn(m, libs, m1)
  {
    hide ImageMapped, ImageInSpace, InMemory, FreeIn, ImagesApart;
    if libs != [] {
      var n := |libs| - 1;
      var mid := ImagesMapped(m, libs[..n]).value;
      ImagesComeIn(m, libs[..n], mid);
      ImageComesIn(mid, libs[n].pe, m1);
      WasFree(m, mid, libs[n].pe);
      forall i | 0 <= i < n
        ensures InMemory(m1, libs[i].pe) && FreeIn(m, libs[i].pe) && ImagesApart(libs[i], libs[n])
      {
        assert libs[..n][i] == libs[i];
        StaysInMemory(mid, m1, libs[i].pe);
        MappedAndFreeApart(mid, libs[i], libs[n]);
      }
      forall i, j | 0 <= i < j < n ensures ImagesApart(libs[i], libs[j]) {
        assert ImagesApart(libs[..n][i], libs[..n][j]);
      }
    }
  }

  /** The executable is in memory from its own mapping on, whatever is mapped besides. */
  lemma ExecutableComesIn(m: Memory, pe: PeData, headersSize: Dword, m1: Memory, before: Memory)
    requires ExeMapped(m, pe, headersSize) == Some(m1) && ImageInSpace(pe) && Grows(m1, before)
    ensures InMemory(before, pe)
  {
    hide ImageMapped, SectionExtent, RangeMapped, RangeFree;
    forall k: nat | k < |pe.sections|
      ensures SectionExtent(pe, k) > 0 && RangeMapped(m1, SectionStart(pe, k), SectionExtent(pe, k))
    {
      ImageMaps(m, pe, [HeaderRegion(pe, headersSize)], m1, k);
    }
    StaysInMemory(m1, before, pe);
  }

  // ---------------------------------------------------------------- a loaded program

  // A run of the loader: memory before and after, and what was loaded.
  datatype Program = Program(
    before: Memory, exe: WinRuntimeObject, files: map<string, PeData>, libs: seq<WinRuntimeObject>, base: Word,
    callback: Word, after: Memory)

  /** A successful run of the loader on well-formed files. */
  ghost predicate Loaded(p: Program) {
    && ProgramLoaded(p.before, p.exe, p.files, p.libs, p.base, p.callback, p.after)
    && ProgramOk(p.exe, p.libs) && ReadyToLoad(p.before, p.exe, p.base)
  }

  /** What `Load` says when it succeeds. */
  ghost predicate ProgramLoaded(
    before: Memory, exe: WinRuntimeObject, files: map<string, PeData>, libs: seq<WinRuntimeObject>, base: Word,
    callback: Word, after: Memory)
  {
    && base + UINT32_LIMIT + PAGE_SIZE < ADDRESS_LIMIT && |exe.pe.importDir| <= MAX_IMPORT_DIRECTORY
    && exe.iatSectionBase == ExeSectionBase(exe.pe, base)
    && match DllsLoaded(Reserved(before, base), exe.pe.importDir, files, exe.iatSectionBase + PAGE_SIZE)
       case None => false
       case Some((dlls, mapped)) =>
         dlls == libs && InitAll(Released(mapped, base), exe, libs, callback) == Some(after)
  }

  /** What the files must be like: page-aligned import sections, tables in order inside sections, function imports
      seven bytes apart, names in the tables as in the import directory, exports inside sections. */
  ghost predicate ProgramOk(exe: WinRuntimeObject, libs: seq<WinRuntimeObject>) {
    && ImportsAligned(exe.pe) && SectionsAligned(libs)
    && (forall i :: 0 <= i <= |libs| ==> FileOk(Image(exe, libs, i).pe, libs))
  }

  ghost predicate FileOk(pe: PeData, libs: seq<WinRuntimeObject>) {
    PeOk(pe, libs) && AnnotatedBy(pe) && DistinctAddresses(pe.importDir) && ExportsInside(pe)
  }

  // The kernel reserves the region where nothing is mapped, and the executable is mapped already.
  ghost predicate ReadyToLoad(before: Memory, exe: WinRuntimeObject, base: Word) {
    0 < base && base % PAGE_SIZE == 0 && RangeFree(before, base, RESERVED_SIZE) && InMemory(before, exe.pe)
  }

  lemma SlotsStay(m: Memory, base: Word, o: WinRuntimeObject, libs: seq<WinRuntimeObject>)
    requires PeOk(o.pe, libs) && InMemory(m, o.pe)
    requires forall k: nat :: k < |o.pe.sections| ==>
      Apart(SectionStart(o.pe, k), SectionExtent(o.pe, k), base, RESERVED_SIZE)
    ensures SlotsMapped(Released(m, base), o)
  {
    forall i | 0 <= i < |o.pe.iat| ensures SlotMapped(Released(m, base), o, i) {
      assert InSection(o.pe, o.pe.iat[i].key, 8);
      var k: nat :| k < |o.pe.sections| && SectionHolds(o.pe, k, o.pe.iat[i].key, 8);
      PageUpNear(o.pe.sections[k].virtualSize);
      assert RangeMapped(m, SectionStart(o.pe, k), SectionExtent(o.pe, k));
    }
  }

  lemma ExeSlotsStay(
    before: Memory, m: Memory, exe: WinRuntimeObject, libs: seq<WinRuntimeObject>, base: Word)
    requires ReadyToLoad(before, exe, base) && PeOk(exe.pe, libs) && Grows(Reserved(before, base), m)
    ensures InMemory(m, exe.pe) && SlotsMapped(Released(m, base), exe)
  {
    hide PeOk, SlotsMapped, SectionExtent;
    assert Grows(before, m) by {
      forall x | x in before ensures x in m && m[x] == before[x] {
        assert x in Reserved(before, base);
      }
    }
    StaysInMemory(before, m, exe.pe);
    forall k: nat | k < |exe.pe.sections|
      ensures Apart(SectionStart(exe.pe, k), SectionExtent(exe.pe, k), base, RESERVED_SIZE)
    {
      MappedApart(before, SectionStart(exe.pe, k), SectionExtent(exe.pe, k), base, RESERVED_SIZE);
    }
    SlotsStay(m, base, exe, libs);
  }

  lemma LibSlotsStay(before: Memory, m: Memory, lib: WinRuntimeObject, libs: seq<WinRuntimeObject>, base: Word)
    requires FreeIn(Reserved(before, base), lib.pe) && InMemory(m, lib.pe) && PeOk(lib.pe, libs)
    ensures SlotsMapped(Released(m, base), lib)
  {
    hide PeOk, SlotsMapped, SectionExtent;
    forall k: nat | k < |lib.pe.sections|
      ensures Apart(SectionStart(lib.pe, k), SectionExtent(lib.pe, k), base, RESERVED_SIZE)
    {
      MappedApart(Reserved(before, base), base, RESERVED_SIZE, SectionStart(lib.pe, k), SectionExtent(lib.pe, k));
    }
    SlotsStay(m, base, lib, libs);
  }

  lemma ExeApart(before: Memory, exe: WinRuntimeObject, lib: WinRuntimeObject, base: Word)
    requires ReadyToLoad(before, exe, base) && FreeIn(Reserved(before, base), lib.pe)
    ensures ImagesApart(exe, lib)
  {
    assert Grows(before, Reserved(before, base));
    WasFree(before, Reserved(before, base), lib.pe);
    MappedAndFreeApart(before, exe, lib);
  }

  // The same, of the images and the memory in which initialisation starts.
  ghost predicate StartsFrom(
    m: Memory, exe: WinRuntimeObject, libs: seq<WinRuntimeObject>, callback: Word, after: Memory)
  {
    WellPlaced(m, exe, libs) && InitAll(m, exe, libs, callback) == Some(after)
  }

  lemma ImagesPlaced(
    before: Memory, exe: WinRuntimeObject, libs: seq<WinRuntimeObject>, base: Word, mapped: Memory)
    requires ReadyToLoad(before, exe, base) && AllComeIn(Reserved(before, base), libs, mapped)
    requires forall i :: 0 <= i <= |libs| ==> ImageOk(Image(exe, libs, i), libs)
    ensures WellPlaced(Released(mapped, base), exe, libs)
  {
    var m := Released(mapped, base);
    hide SlotsMapped, ImagesApart, InMemory, FreeIn, Reserved, Released, PeOk, PageOk, ReadyToLoad;
    forall i | 0 <= i <= |libs| ensures SlotsMapped(m, Image(exe, libs, i)) {
      assert ImageOk(Image(exe, libs, i), libs);
      if i == 0 {
        ExeSlotsStay(before, mapped, exe, libs, base);
      } else {
        LibSlotsStay(before, mapped, libs[i - 1], libs, base);
      }
    }
    forall i, j | 0 <= i < j <= |libs| ensures ImagesApart(Image(exe, libs, i), Image(exe, libs, j)) {
      if i == 0 {
        ExeApart(before, exe, libs[j - 1], base);
      }
    }
  }

  lemma FileOfImage(exe: WinRuntimeObject, libs: seq<WinRuntimeObject>, i: nat)
    requires ProgramOk(exe, libs) && i <= |libs|
    ensures FileOk(Image(exe, libs, i).pe, libs) && ImageInSpace(Image(exe, libs, i).pe)
    ensures PeOk(Image(exe, libs, i).pe, libs)
  {
  }

  lemma LoadBounds(p: Program)
    requires Loaded(p)
    ensures p.base + UINT32_LIMIT + PAGE_SIZE < ADDRESS_LIMIT && |p.exe.pe.importDir| <= MAX_IMPORT_DIRECTORY
    ensures p.exe.iatSectionBase == ExeSectionBase(p.exe.pe, p.base)
    ensures ProgramOk(p.exe, p.libs) && ReadyToLoad(p.before, p.exe, p.base)
  {
    hide DllsLoaded, InitAll, ProgramOk, ReadyToLoad;
  }

  /** The two stages of a load. */
  lemma LoadStages(p: Program) returns (mapped: Memory)
    requires Loaded(p)
    ensures LoadedDlls(p.exe.pe.importDir, p.files, p.exe.iatSectionBase + PAGE_SIZE) == Some(p.libs)
    ensures ImagesMapped(Reserved(p.before, p.base), p.libs) == Some(mapped)
    ensures InitAll(Released(mapped, p.base), p.exe, p.libs, p.callback) == Some(p.after)
  {
    hide InitAll, LoadedDlls, ImagesMapped, ProgramOk, ReadyToLoad, Reserved, Released;
    mapped := ImagesMapped(Reserved(p.before, p.base), p.libs).value;
  }

  // Initialisation starts when the libraries are mapped and the reserved region is given back.
  ghost predicate ReleasedFrom(p: Program, m: Memory) {
    match ImagesMapped(Reserved(p.before, p.base), p.libs)
    case None => false
    case Some(mapped) => m == Released(mapped, p.base)
  }

  /** Where initialisation starts, no two images overlap, all slots are mapped, and the trampoline pages are placed:
      all that follows from the mappings having succeeded. */
  lemma StartPlaced(
    before: Memory, exe: WinRuntimeObject, files: map<string, PeData>, libs: seq<WinRuntimeObject>, base: Word,
    mapped: Memory)
    requires base + UINT32_LIMIT + PAGE_SIZE < ADDRESS_LIMIT && |exe.pe.importDir| <= MAX_IMPORT_DIRECTORY
    requires exe.iatSectionBase == ExeSectionBase(exe.pe, base) && ReadyToLoad(before, exe, base)
    requires LoadedDlls(exe.pe.importDir, files, exe.iatSectionBase + PAGE_SIZE) == Some(libs)
    requires ImagesMapped(Reserved(before, base), libs) == Some(mapped)
    requires ImportsAligned(exe.pe) && SectionsAligned(libs)
    requires forall i :: 0 <= i <= |libs| ==> PeOk(Image(exe, libs, i).pe, libs)
    ensures Placement(exe, libs, base) && WellPlaced(Released(mapped, base), exe, libs)
    ensures forall i, j :: 0 <= i < j < |libs| ==> ImagesApart(libs[i], libs[j])
  {
    hide LoadedDlls, ImagesMapped, ImagesApart, Reserved, Released, InMemory, RangeFree;
    hide FreeIn, PeOk, PageOk, WellPlaced, ExeSectionBase, Placement, SectionsAligned, ImportsAligned;
    forall i | 0 <= i < |libs| ensures ImageInSpace(libs[i].pe) {
      assert Image(exe, libs, i + 1) == libs[i];
      PeInSpace(libs[i].pe, libs);
    }
    ImagesComeIn(Reserved(before, base), libs, mapped);
    LoadPlaces(exe, files, libs, base);
    forall i | 0 <= i <= |libs| ensures ImageOk(Image(exe, libs, i), libs) {}
    ImagesPlaced(before, exe, libs, base, mapped);
  }

  lemma PeInSpace(pe: PeData, libs: seq<WinRuntimeObject>)
    requires PeOk(pe, libs)
    ensures ImageInSpace(pe)
  {
  }

  /** The images of a loaded program do not overlap, and their slots are mapped. */
  lemma LoadedWellPlaced(p: Program) returns (m: Memory)
    requires Loaded(p)
    ensures LoadedDlls(p.exe.pe.importDir, p.files, p.exe.iatSectionBase + PAGE_SIZE) == Some(p.libs)
    ensures Placement(p.exe, p.libs, p.base) && LibrariesOk(p.libs) && StartsFrom(m, p.exe, p.libs, p.callback, p.after)
    ensures ReleasedFrom(p, m)
  {
    hide Loaded, InitAll, LoadedDlls, ImagesMapped, FileOk, ImagesApart, Reserved, Released, WellPlaced, InMemory;
    hide PeOk, LibrariesOk, ReadyToLoad, ExeSectionBase, Placement;
    LoadBounds(p);
    var mapped := LoadStages(p);
    m := Released(mapped, p.base);
    forall i | 0 <= i <= |p.libs| ensures PeOk(Image(p.exe, p.libs, i).pe, p.libs) {
      FileOfImage(p.exe, p.libs, i);
    }
    StartPlaced(p.before, p.exe, p.files, p.libs, p.base, mapped);
    LibrariesAreOk(p.exe, p.libs);
  }

  lemma LibrariesAreOk(exe: WinRuntimeObject, libs: seq<WinRuntimeObject>)
    requires ProgramOk(exe, libs) && forall i, j :: 0 <= i < j < |libs| ==> ImagesApart(libs[i], libs[j])
    ensures LibrariesOk(libs)
  {
    hide PeOk, ImagesApart;
    forall i | 0 <= i < |libs| ensures ImageInSpace(libs[i].pe) && ExportsInside(libs[i].pe) {
      FileOfImage(exe, libs, i + 1);
    }
  }

  /** A successful load establishes all that a dispatched call needs, for every image. */
  lemma LoadMakesReady(p: Program)
    requires Loaded(p)
    ensures Placement(p.exe, p.libs, p.base)
    ensures forall i :: 0 <= i <= |p.libs| ==> ImageReady(p, i)
  {
    hide Loaded, InitAll, ImageOk, Installed, Placement, LibrariesOk, LoadedDlls, ReleasedFrom;
    var m := LoadedWellPlaced(p);
    AllInstalled(m, p.exe, p.libs, p.callback, p.after);
    InitSucceeds(m, p.exe, p.libs, p.callback);
    forall i | 0 <= i <= |p.libs| ensures ImageReady(p, i) {
      assert CanInit(m, p.exe, p.libs, i, p.callback);
    }
  }

  ghost predicate ImageReady(p: Program, i: nat) {
    i <= |p.libs| ==>
      && ImageOk(Image(p.exe, p.libs, i), p.libs)
      && Installed(p.after, Image(p.exe, p.libs, i), p.libs, p.callback)
      && (Image(p.exe, p.libs, i).pe.iat != [] ==> p.callback < UINT32_LIMIT)
  }

  // ---------------------------------------------------------------- where a call arrives

  /** Slot `i` of image `k` stands for a function of the name. */
  predicate ImportsFrom(p: Program, k: nat, i: nat, libName: string, name: string) {
    && k <= |p.libs| && i < |Image(p.exe, p.libs, k).pe.iat|
    && var e := Image(p.exe, p.libs, k).pe.iat[i];
       IsFunction(e, p.libs) && e.libName == Some(libName) && e.importName == Some(name)
  }

  /** The last entry of the directory that imports the name. */
  function LastImporter(dir: seq<ImportDirectoryEntry>, name: string): (l: Option<nat>)
    ensures l.Some? ==> l.value < |dir| && Imports(dir[l.value], name)
    ensures l.Some? ==> forall j :: l.value < j < |dir| ==> !Imports(dir[j], name)
    ensures l == None ==> forall j :: 0 <= j < |dir| ==> !Imports(dir[j], name)
  {
    if dir == [] then None
    else if Imports(dir[|dir| - 1], name) then Some(|dir| - 1)
    else LastImporter(dir[..|dir| - 1], name)
  }

  /** Where a function import leads, in terms of the files: to libntdll's symbol for ntdll.dll, and otherwise to
      image base plus export address of the last library the executable itself imports the name from. */
  function Meant(p: Program, ntdll: seq<RuntimeSymbol>, libName: string, name: string): Option<Target> {
    if libName == NTDLL then NtdllTarget(ntdll, name)
    else
      match LastImporter(p.exe.pe.importDir, name)
      case None => None
      case Some(l) => ExportTarget(p, l, name)
  }

  /** The first symbol of libntdll with the name, unless it is at address 0. */
  function NtdllTarget(ntdll: seq<RuntimeSymbol>, name: string): (t: Option<Target>)
    ensures forall k: nat :: IsFirstSymbol(ntdll, name, k) ==>
      t == if ntdll[k].value == 0 then None else Some(Target(true, ntdll[k].value))
    ensures t.Some? ==> exists k: nat :: IsFirstSymbol(ntdll, name, k)
  {
    match FirstSymbol(ntdll, name, 0)
    case None => None
    case Some(k) => if ntdll[k].value == 0 then None else Some(Target(true, ntdll[k].value))
  }

  function ExportTarget(p: Program, l: nat, name: string): Option<Target> {
    if l >= |p.libs| then None
    else
      match ExportNamed(p.libs[l].pe.exports, name)
      case None => None
      case Some(e) => Some(Target(false, Wrap(p.libs[l].pe.imageBase + e.address)))
  }

  /** Library `l` exports the name at the address. */
  predicate Exports(p: Program, l: nat, name: string, address: int) {
    && l < |p.libs| && ExportNamed(p.libs[l].pe.exports, name).Some?
    && address == p.libs[l].pe.imageBase + ExportNamed(p.libs[l].pe.exports, name).value.address
  }

  /** The executable imports the name from library `l`, and from no later one. */
  predicate LastImportedFrom(p: Program, l: nat, name: string) {
    && |p.libs| == |p.exe.pe.importDir| && l < |p.libs|
    && Imports(p.exe.pe.importDir[l], name)
    && forall j | l < j < |p.libs| :: !Imports(p.exe.pe.importDir[j], name)
  }

  /** What the word in slot `i` of image `k` leads to: the callback's answer for the trampoline it points to. */
  function Reached(p: Program, ntdll: seq<RuntimeSymbol>, k: nat, i: nat): Option<Target>
    requires k <= |p.libs| && i < |Image(p.exe, p.libs, k).pe.iat|
  {
    var o := Image(p.exe, p.libs, k);
    var start := LoadWord(p.after, Wrap(o.pe.imageBase + o.pe.iat[i].key));
    CallbackTarget(p.exe, p.libs, ntdll, p.base, Wrap(start + TRAMPOLINE_SIZE))
  }

  /** In a loaded program the word in any function slot of any image leads to what the import means. */
  lemma LoadedSlotReaches(p: Program, ntdll: seq<RuntimeSymbol>, k: nat, i: nat, libName: string, name: string)
    requires ImportsFrom(p, k, i, libName, name) && Loaded(p)
    ensures Reached(p, ntdll, k, i) == Meant(p, ntdll, libName, name)
  {
    SlotNames(p, ntdll, k, i, libName, name);
    NamedIsMeant(p, ntdll, libName, name);
  }

  /** Symbol `k` of libntdll, being the first one of its name, is what an ntdll.dll import of the name reaches. */
  lemma NtdllReached(p: Program, ntdll: seq<RuntimeSymbol>, k: nat, i: nat, name: string, n: nat)
    requires ImportsFrom(p, k, i, NTDLL, name) && Loaded(p) && IsFirstSymbol(ntdll, name, n)
    ensures Reached(p, ntdll, k, i)
         == if ntdll[n].value == 0 then None else Some(Target(true, ntdll[n].value))
  {
    hide Loaded, Reached;
    LoadedSlotReaches(p, ntdll, k, i, NTDLL, name);
  }

  lemma SlotNames(p: Program, ntdll: seq<RuntimeSymbol>, k: nat, i: nat, libName: string, name: string)
    requires ImportsFrom(p, k, i, libName, name) && Loaded(p)
    ensures Reached(p, ntdll, k, i) == NamedTarget(p.libs, ntdll, libName, name)
  {
    hide Loaded, CallbackTarget, NamedTarget, Placement, Installed, LoadWord, ProgramOk, ReadyToLoad, ExeSectionBase;
    LoadBounds(p);
    LoadMakesReady(p);
    FileOfImage(p.exe, p.libs, k);
    var o := Image(p.exe, p.libs, k);
    assert ImageReady(p, k);
    PlaceInSpace(o.pe, o.pe.iat[i].key, 8);
    assert Wrap(o.pe.imageBase + o.pe.iat[i].key) == o.pe.imageBase + o.pe.iat[i].key;
    SlotLeadsTo(p.after, p.exe, p.libs, ntdll, p.base, p.callback, k, i);
  }

  lemma NamedIsMeant(p: Program, ntdll: seq<RuntimeSymbol>, libName: string, name: string)
    requires Loaded(p)
    ensures NamedTarget(p.libs, ntdll, libName, name) == Meant(p, ntdll, libName, name)
  {
    hide Loaded, ExportNamed, LoadedDlls, LibrariesOk, StartsFrom, Placement, ProgramOk, ReadyToLoad, LastRecorded;
    hide ExportIn, LastImporter, Records, ExportTarget;
    if libName != NTDLL {
      match LastImporter(p.exe.pe.importDir, name)
      case None =>
        forall j | 0 <= j < |p.libs| ensures !Records(p.libs[j], name) {
          LoadedRecords(p, j, name);
        }
        NoneRecorded(p.libs, name);
      case Some(l) =>
        LoadedLibraries(p);
        forall j | l <= j < |p.libs| ensures Records(p.libs[j], name) <==> j == l {
          LoadedRecords(p, j, name);
        }
        LastRecordedIs(p.libs, name, l);
        LoadedRecords(p, l, name);
    }
  }

  lemma LoadedLibraries(p: Program)
    requires Loaded(p)
    ensures |p.libs| == |p.exe.pe.importDir|
  {
    hide Loaded, LoadedDlls, LibrariesOk, StartsFrom, Placement, ReleasedFrom, ExeSectionBase, ReadyToLoad, ProgramOk;
    LoadBounds(p);
    var m := LoadedWellPlaced(p);
    LoadedLength(p.exe.pe.importDir, p.files, p.exe.iatSectionBase + PAGE_SIZE, p.libs);
  }

  /** What a library of a loaded program records: exactly the names the executable imports from it, at nonzero
      addresses. */
  lemma LoadedRecords(p: Program, j: nat, name: string)
    requires Loaded(p) && j < |p.libs|
    ensures |p.libs| == |p.exe.pe.importDir|
    ensures Records(p.libs[j], name) <==> Imports(p.exe.pe.importDir[j], name)
    ensures Records(p.libs[j], name) ==>
      var address := ExportIn(p.libs[j].exports, name).value;
      address > 0 && ExportTarget(p, j, name) == Some(Target(false, address))
  {
    hide Loaded, ExportNamed, LoadedDlls, StartsFrom, Placement, ProgramOk, ReadyToLoad, ImagesApart, ExportsInside;
    hide ReleasedFrom, InSection, ImageInSpace;
    LoadBounds(p);
    var m := LoadedWellPlaced(p);
    RecordsAddress(p.exe.pe.importDir, p.files, p.exe.iatSectionBase + PAGE_SIZE, p.libs, j, name);
    if Records(p.libs[j], name) {
      var address := ExportNamed(p.libs[j].pe.exports, name).value.address;
      assert ImageInSpace(p.libs[j].pe);
      PlaceInSpace(p.libs[j].pe, address, 1);
      AboveZero(p.libs[j].pe);
    }
  }

  lemma AboveZero(pe: PeData)
    requires ImageInSpace(pe)
    ensures pe.imageBase > 0
  {
  }

  /** A library's export is what an import means exactly when the executable imports the name from that library
      and from no later one. */
  lemma MeantIsExport(
    p: Program, ntdll: seq<RuntimeSymbol>, libName: string, name: string, l: nat, address: Word)
    requires libName != NTDLL && Exports(p, l, name, address) && Loaded(p)
    ensures Meant(p, ntdll, libName, name) == Some(Target(false, address)) <==> LastImportedFrom(p, l, name)
  {
    hide Loaded, NamedTarget, ExportNamed, LoadedDlls, LibrariesOk, StartsFrom, Placement, ProgramOk, ReadyToLoad;
    hide Meant, ImagesApart, ReleasedFrom;
    LoadBounds(p);
    var m := LoadedWellPlaced(p);
    var start := p.exe.iatSectionBase + PAGE_SIZE;
    TargetIsExport(p.exe.pe.importDir, p.files, start, p.libs, ntdll, l, libName, name);
    NamedIsMeant(p, ntdll, libName, name);
  }

  /** A call of another library's function ends the program exactly when the executable imports the name from no
      library; one of ntdll.dll's functions, when libntdll's first symbol of the name is at 0 or there is none. */
  lemma ExitsWhen(p: Program, ntdll: seq<RuntimeSymbol>, libName: string, name: string)
    requires Loaded(p)
    ensures Meant(p, ntdll, libName, name) == None <==>
      if libName == NTDLL then !exists k: nat :: IsFirstSymbol(ntdll, name, k) && ntdll[k].value != 0
      else forall j :: 0 <= j < |p.exe.pe.importDir| ==> !Imports(p.exe.pe.importDir[j], name)
  {
    hide Loaded, ExportTarget, Imports;
    if libName != NTDLL {
      LoadedLibraries(p);
      var l := LastImporter(p.exe.pe.importDir, name);
      if l.Some? {
        LoadedRecords(p, l.value, name);
      }
    }
  }

  // ---------------------------------------------------------------- the loader and the processor

  ghost predicate IsRunOf(loader: Loader, p: Program)
    reads loader
  {
    && loader.exe == p.exe && loader.libs == p.libs && loader.memory == p.after
    && loader.initialBase == p.base && loader.callback == p.callback
  }

  /** The executable was mapped into `start`, and nothing of it has changed when the DLLs are loaded. */
  ghost predicate ExecutableIn(p: Program, start: Memory, headersSize: Dword) {
    match ExeMapped(start, p.exe.pe, headersSize)
    case None => false
    case Some(m) => Grows(m, p.before)
  }

  /** A call through any function slot of any image of a loaded program: a DLL function is entered as by a direct
      call, a function of libntdll is run with the parameters in their System V places and its caller goes on,
      and where the import means nothing the loader exits. */
  method CallLoaded(
    cpu: Cpu, loader: Loader, ghost p: Program, k: nat, i: nat, ghost libName: string, ghost name: string,
    junk: State, callee: Callee, next: int)
    returns (outcome: Outcome)
    requires ImportsFrom(p, k, i, libName, name) && Loaded(p)
    requires IsRunOf(loader, p) && CallFrame(cpu.c) && KeepsSysV(callee)
    modifies cpu
    ensures match Meant(p, loader.ntdll, libName, name)
            case None => outcome == Exited
            case Some(Target(false, address)) => outcome == Entered && WentTo(old(cpu.c), cpu.c, address)
            case Some(Target(true, address)) =>
              outcome.Returned? && WentToLinux(old(cpu.c), outcome.entry, cpu.c, address, callee)
  {
    hide Loaded, ProgramOk, ReadyToLoad, Installed, Placement, ImageOk, NamedTarget, Meant, KeepsSysV;
    hide WentTo, WentToLinux, AnnotatedBy, DistinctAddresses, ExeSectionBase;
    LoadBounds(p);
    LoadMakesReady(p);
    FileOfImage(p.exe, p.libs, k);
    assert ImageReady(p, k);
    outcome := CallImport(cpu, loader, k, i, junk, callee, next);
    NamedIsMeant(p, loader.ntdll, libName, name);
  }
}
