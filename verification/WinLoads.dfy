/** Exactly when a Windows program loads: its files, the names in them, the places of its images, and the pages of its
    trampolines. */
module WinLoads {
  import opened AddressSpace
  import opened MemoryRegions
  import opened PeSections
  import opened PeSpace
  import opened RegionMapping
  import opened WinDispatch
  import opened WinIat
  import opened WinImages
  import opened WinInstall
  import opened WinLoader
  import opened WinProgram
  import opened Words

  // ---------------------------------------------------------------- files and names

  predicate Exported(pe: PeData, name: string) {
    exists e | e in pe.exports :: e.name == name
  }

  /** The library's file exists and exports every name the executable imports from it. */
  predicate DllLoads(d: ImportDirectoryEntry, files: map<string, PeData>) {
    d.libName in files && forall e | e in d.imports :: Exported(files[d.libName], e.name)
  }

  lemma {:induction false} ExportFound(exports: seq<ExportEntry>, name: string)
    ensures ExportNamed(exports, name).Some? <==> exists e :: e in exports && e.name == name
  {
    if exports != [] {
      var n := |exports| - 1;
      ExportFound(exports[..n], name);
      assert forall e :: e in exports <==> e in exports[..n] || e == exports[n];
    }
  }

  lemma {:induction false} RecordedWhen(imports: seq<ImportEntry>, pe: PeData)
    ensures Recorded(imports, pe).Some? <==> forall e :: e in imports ==> Exported(pe, e.name)
  {
    hide Exported, ExportNamed;
    if imports != [] {
      var n := |imports| - 1;
      RecordedWhen(imports[..n], pe);
      ExportedWhen(pe, imports[n].name);
      assert forall e :: e in imports <==> e in imports[..n] || e == imports[n];
    }
  }

  lemma ExportedWhen(pe: PeData, name: string)
    ensures ExportNamed(pe.exports, name).Some? <==> Exported(pe, name)
  {
    ExportFound(pe.exports, name);
  }

  lemma DllLoadsWhen(d: ImportDirectoryEntry, files: map<string, PeData>, cursor: int)
    ensures LoadedDll(d, files, cursor).Some? <==> DllLoads(d, files)
  {
    hide Recorded, Exported;
    if d.libName in files {
      RecordedWhen(d.imports, files[d.libName]);
    }
  }

  lemma {:induction false} LoadedWhen(dir: seq<ImportDirectoryEntry>, files: map<string, PeData>, cursor: int)
    ensures LoadedDlls(dir, files, cursor).Some? <==> forall d :: d in dir ==> DllLoads(d, files)
  {
    hide LoadedDll, DllLoads;
    if dir != [] {
      var n := |dir| - 1;
      LoadedWhen(dir[..n], files, cursor);
      assert forall d :: d in dir <==> d in dir[..n] || d == dir[n];
      if LoadedDlls(dir[..n], files, cursor).Some? {
        DllLoadsWhen(dir[n], files, Cursor(cursor, LoadedDlls(dir[..n], files, cursor).value));
      }
    }
  }

  // ---------------------------------------------------------------- the places of the libraries

  ghost predicate ImagesDisjoint(pe: PeData, pe': PeData) {
    forall k: nat, k': nat :: k < |pe.sections| && k' < |pe'.sections| ==> SectionPagesApart(pe, k, pe', k')
  }

  /** All sections of all libraries fit into memory, and no two of them overlap. */
  ghost predicate ImagesFit(m: Memory, libs: seq<WinRuntimeObject>) {
    && (forall i :: 0 <= i < |libs| ==> SectionsFit(m, libs[i].pe))
    && (forall i, j :: 0 <= i < j < |libs| ==> ImagesDisjoint(libs[i].pe, libs[j].pe))
  }

  predicate InLibraries(libs: seq<WinRuntimeObject>, x: int) {
    exists i | 0 <= i < |libs| :: InImage(libs[i].pe, x)
  }

  ghost predicate AllInSpace(libs: seq<WinRuntimeObject>) {
    forall i :: 0 <= i < |libs| ==> ImageInSpace(libs[i].pe)
  }

  lemma InLast(libs: seq<WinRuntimeObject>, x: int)
    requires libs != []
    ensures InLibraries(libs, x) <==> InLibraries(libs[..|libs| - 1], x) || InImage(libs[|libs| - 1].pe, x)
  {
    hide InImage;
    var n := |libs| - 1;
    if i :| 0 <= i < |libs| && InImage(libs[i].pe, x) {
      assert i < n ==> InImage(libs[..n][i].pe, x);
    }
    if i :| 0 <= i < n && InImage(libs[..n][i].pe, x) {
      assert InImage(libs[i].pe, x);
    }
  }

  lemma {:induction false} ImagesAddresses(m: Memory, libs: seq<WinRuntimeObject>, m1: Memory, x: int)
    requires ImagesMapped(m, libs) == Some(m1) && AllInSpace(libs)
    ensures x in m1 <==> x in m || InLibraries(libs, x)
  {
    hide ImageMapped, InImage, ImageInSpace, InLibraries;
    if libs != [] {
      var n := |libs| - 1;
      var mid := ImagesMapped(m, libs[..n]).value;
      ImagesAddresses(m, libs[..n], mid, x);
      ImageAddresses(mid, libs[n].pe, [], m1, x);
      InLast(libs, x);
      assert !InRegions([], 0, x);
    } else {
      NotInNone(x);
    }
  }

  lemma NotInNone(x: int)
    ensures !InLibraries([], x)
  {
  }

  /** Two ranges of some length: the second is free once the first is mapped exactly when it was and they keep
      apart. */
  lemma FreeBehind(m: Memory, m1: Memory, pe: PeData, k: nat, a: int, n: nat)
    requires k < |pe.sections| && SectionExtent(pe, k) > 0 && n > 0
    requires forall x :: x in m || InSectionPages(pe, k, x) ==> x in m1
    requires RangeFree(m1, a, n)
    ensures RangeFree(m, a, n) && Apart(SectionStart(pe, k), SectionExtent(pe, k), a, n)
  {
    hide SectionExtent;
    var x := if SectionStart(pe, k) < a then a else SectionStart(pe, k);
    assert InSectionPages(pe, k, x) ==> x in m1;
  }

  lemma ExtentPositive(m: Memory, pe: PeData, k: nat)
    requires k < |pe.sections| && SectionFits(m, pe, k)
    ensures SectionExtent(pe, k) > 0
  {
    PageUpNear(pe.sections[k].virtualSize);
  }

  /** An image fits behind the libraries exactly when it fits without them and overlaps none of them. */
  lemma FitsBehind(m: Memory, libs: seq<WinRuntimeObject>, mid: Memory, pe: PeData)
    requires forall x :: x in mid <==> x in m || InLibraries(libs, x)
    requires forall i :: 0 <= i < |libs| ==> SectionsFit(m, libs[i].pe)
    ensures SectionsFit(mid, pe) <==>
      SectionsFit(m, pe) && forall i :: 0 <= i < |libs| ==> ImagesDisjoint(libs[i].pe, pe)
  {
    hide SectionExtent;
    if SectionsFit(mid, pe) {
      forall k: nat | k < |pe.sections| ensures SectionFits(m, pe, k) {
        assert SectionFits(mid, pe, k);
      }
      forall i | 0 <= i < |libs| ensures ImagesDisjoint(libs[i].pe, pe) {
        forall k: nat, k': nat | k < |libs[i].pe.sections| && k' < |pe.sections|
          ensures SectionPagesApart(libs[i].pe, k, pe, k')
        {
          BehindOne(m, libs, mid, i, k, pe, k');
        }
      }
    }
    if SectionsFit(m, pe) && forall i :: 0 <= i < |libs| ==> ImagesDisjoint(libs[i].pe, pe) {
      forall k: nat | k < |pe.sections| ensures SectionFits(mid, pe, k) {
        assert SectionFits(m, pe, k);
        forall x | InSectionPages(pe, k, x) ensures x !in mid {
          if i :| 0 <= i < |libs| && InImage(libs[i].pe, x) {
            var k': nat :| k' < |libs[i].pe.sections| && InSectionPages(libs[i].pe, k', x);
            assert SectionPagesApart(libs[i].pe, k', pe, k);
          }
        }
        assert forall x :: SectionStart(pe, k) <= x < SectionStart(pe, k) + SectionExtent(pe, k) ==>
          InSectionPages(pe, k, x);
      }
    }
  }

  lemma BehindOne(m: Memory, libs: seq<WinRuntimeObject>, mid: Memory, i: nat, k: nat, pe: PeData, k': nat)
    requires forall x :: x in mid <==> x in m || InLibraries(libs, x)
    requires i < |libs| && SectionsFit(m, libs[i].pe) && k < |libs[i].pe.sections|
    requires k' < |pe.sections| && SectionFits(mid, pe, k')
    ensures SectionPagesApart(libs[i].pe, k, pe, k')
  {
    assert SectionFits(m, libs[i].pe, k);
    ExtentPositive(m, libs[i].pe, k);
    ExtentPositive(mid, pe, k');
    hide SectionExtent;
    forall x | InSectionPages(libs[i].pe, k, x) ensures x in mid {
      assert InImage(libs[i].pe, x);
      assert InLibraries(libs, x);
    }
    FreeBehind(m, mid, libs[i].pe, k, SectionStart(pe, k'), SectionExtent(pe, k'));
  }

  /** The libraries can be mapped exactly when they all fit and no two of them overlap. */
  lemma {:induction false} ImagesMapWhen(m: Memory, libs: seq<WinRuntimeObject>)
    requires AllInSpace(libs)
    ensures ImagesMapped(m, libs).Some? <==> ImagesFit(m, libs)
  {
    hide ImageMapped, SectionsFit, ImagesDisjoint, ImageInSpace;
    if libs != [] {
      var n := |libs| - 1;
      var init, last := libs[..n], libs[n];
      ImagesMapWhen(m, init);
      FitStep(m, libs);
      if ImagesFit(m, init) {
        var mid := ImagesMapped(m, init).value;
        forall x ensures x in mid <==> x in m || InLibraries(init, x) {
          ImagesAddresses(m, init, mid, x);
        }
        FitsBehind(m, init, mid, last.pe);
        ImageMapsWhen(mid, last.pe);
      }
    }
  }

  lemma FitStep(m: Memory, libs: seq<WinRuntimeObject>)
    requires libs != []
    ensures var n := |libs| - 1;
      ImagesFit(m, libs) <==>
        && ImagesFit(m, libs[..n]) && SectionsFit(m, libs[n].pe)
        && forall i :: 0 <= i < n ==> ImagesDisjoint(libs[..n][i].pe, libs[n].pe)
  {
    hide SectionsFit, ImagesDisjoint;
    var n := |libs| - 1;
    var init := libs[..n];
    assert forall i :: 0 <= i < n ==> init[i] == libs[i];
    if ImagesFit(m, libs) {
      forall i | 0 <= i < n ensures SectionsFit(m, init[i].pe) && ImagesDisjoint(init[i].pe, libs[n].pe) {
        assert SectionsFit(m, libs[i].pe) && ImagesDisjoint(libs[i].pe, libs[n].pe);
      }
      forall i, j | 0 <= i < j < n ensures ImagesDisjoint(init[i].pe, init[j].pe) {
        assert ImagesDisjoint(libs[i].pe, libs[j].pe);
      }
    }
    if ImagesFit(m, init) && SectionsFit(m, libs[n].pe) &&
       forall i :: 0 <= i < n ==> ImagesDisjoint(init[i].pe, libs[n].pe) {
      forall i | 0 <= i <= n ensures SectionsFit(m, libs[i].pe) {
        assert i < n ==> SectionsFit(m, init[i].pe);
      }
      forall i, j | 0 <= i < j <= n ensures ImagesDisjoint(libs[i].pe, libs[j].pe) {
        if j < n {
          assert ImagesDisjoint(init[i].pe, init[j].pe);
        } else {
          assert ImagesDisjoint(init[i].pe, libs[n].pe);
        }
      }
    }
  }

  // ---------------------------------------------------------------- the reserved region

  /** No section of the image reaches into the region of 50 pages that is reserved at `base` for trampolines. */
  ghost predicate AvoidsRegion(pe: PeData, base: int) {
    forall k: nat :: k < |pe.sections| ==> SectionAvoids(pe, k, base)
  }

  predicate SectionAvoids(pe: PeData, k: nat, base: int)
    requires k < |pe.sections|
  {
    Apart(SectionStart(pe, k), SectionExtent(pe, k), base, 0x3_2000)
  }

  lemma FitsBesideRegion(m: Memory, base: Word, pe: PeData)
    ensures SectionsFit(Reserved(m, base), pe) <==> SectionsFit(m, pe) && AvoidsRegion(pe, base)
  {
    hide SectionExtent;
    var m1 := Reserved(m, base);
    forall k: nat | k < |pe.sections|
      ensures SectionFits(m1, pe, k) <==> SectionFits(m, pe, k) && SectionAvoids(pe, k, base)
    {
      if SectionFits(m1, pe, k) {
        ExtentPositive(m1, pe, k);
        var x := if SectionStart(pe, k) < base then base else SectionStart(pe, k);
        assert base <= x < base + RESERVED_SIZE ==> x in m1;
      }
    }
  }

  lemma AllFitBesideRegion(m: Memory, base: Word, libs: seq<WinRuntimeObject>)
    ensures ImagesFit(Reserved(m, base), libs) <==>
      ImagesFit(m, libs) && forall i :: 0 <= i < |libs| ==> AvoidsRegion(libs[i].pe, base)
  {
    hide SectionsFit, AvoidsRegion, ImagesDisjoint, Reserved;
    var m1 := Reserved(m, base);
    forall i | 0 <= i < |libs|
      ensures SectionsFit(m1, libs[i].pe) <==> SectionsFit(m, libs[i].pe) && AvoidsRegion(libs[i].pe, base)
    {
      FitsBesideRegion(m, base, libs[i].pe);
    }
  }

  /** The memory in which initialisation starts: what was mapped before and the libraries, nothing of the region, and
      every byte from before unchanged. */
  ghost predicate StartMemory(before: Memory, libs: seq<WinRuntimeObject>, base: int, m: Memory) {
    && (forall x :: x in m <==> !(base <= x < base + 0x3_2000) && (x in before || InLibraries(libs, x)))
    && (forall x :: x in m && x in before ==> m[x] == before[x])
  }

  lemma StartsThere(before: Memory, libs: seq<WinRuntimeObject>, base: Word, mapped: Memory)
    requires ImagesMapped(Reserved(before, base), libs) == Some(mapped) && AllInSpace(libs)
    ensures StartMemory(before, libs, base, Released(mapped, base))
  {
    hide ImagesMapped, InLibraries, InMemory, FreeIn;
    forall x ensures x in mapped <==> x in Reserved(before, base) || InLibraries(libs, x) {
      ImagesAddresses(Reserved(before, base), libs, mapped, x);
    }
    ImagesComeIn(Reserved(before, base), libs, mapped);
  }
  // ---------------------------------------------------------------- the runtime tables

  // The library is one of those loaded, or ntdll.dll.
  predicate LibraryKnown(libs: seq<WinRuntimeObject>, name: string) {
    name == NTDLL || exists i | 0 <= i < |libs| :: libs[i].name == name
  }

  /** The entry has a runtime value: it is null, or names an import of a known library that is no variable before
      the start of its section. */
  predicate EntryLoads(e: ImportAddressEntry, libs: seq<WinRuntimeObject>) {
    e.value != 0 ==>
      && e.libName.Some? && e.importName.Some? && LibraryKnown(libs, e.libName.value)
      && (VariableOf(e, libs).Some? ==> VariableOf(e, libs).value.1.value >= 0)
  }

  lemma {:induction false} ObjectKnown(libs: seq<WinRuntimeObject>, name: string)
    ensures ObjectNamed(libs, name).Some? <==> exists i :: 0 <= i < |libs| && libs[i].name == name
  {
    if libs != [] {
      ObjectKnown(libs[1..], name);
      if i :| 0 <= i < |libs| && libs[i].name == name {
        assert i > 0 ==> libs[1..][i - 1].name == name;
      }
      if i :| 0 <= i < |libs[1..]| && libs[1..][i].name == name {
        assert libs[i + 1].name == name;
      }
    }
  }

  lemma EntryLoadsWhen(e: ImportAddressEntry, libs: seq<WinRuntimeObject>, imageBase: Word, regionBase: Word)
    ensures RuntimeEntry(e, libs, imageBase, regionBase).Some? <==> EntryLoads(e, libs)
  {
    if e.value != 0 && e.libName.Some? && e.importName.Some? {
      ObjectKnown(libs, e.libName.value);
    }
    hide ObjectNamed, SymbolNamed, Wrap, SectionBase;
  }

  lemma TableLoadsWhen(
    iat: seq<ImportAddressEntry>, libs: seq<WinRuntimeObject>, imageBase: Word, regionBase: Word)
    ensures RuntimeTable(iat, libs, imageBase, regionBase).Some? <==> forall e :: e in iat ==> EntryLoads(e, libs)
  {
    hide RuntimeEntry, EntryLoads;
    forall e: ImportAddressEntry
      ensures RuntimeEntry(e, libs, imageBase, regionBase).Some? <==> EntryLoads(e, libs)
    {
      EntryLoadsWhen(e, libs, imageBase, regionBase);
    }
    var t := RuntimeTable(iat, libs, imageBase, regionBase);
    if t.Some? {
      forall e | e in iat ensures EntryLoads(e, libs) {
        var i :| 0 <= i < |iat| && iat[i] == e;
        assert RuntimeEntry(iat[i], libs, imageBase, regionBase) == Some(t.value[i]);
      }
    }
  }

  // ---------------------------------------------------------------- the trampoline pages

  // How far the pages of an image take the search for the next one.
  function TrampolineSpace(pe: PeData): nat {
    if pe.iat == [] then 0 else pe.importSectionBase + PAGE_SIZE
  }

  function SpaceBefore(libs: seq<WinRuntimeObject>, n: nat): nat
    requires n <= |libs|
  {
    if n == 0 then 0 else SpaceBefore(libs, n - 1) + TrampolineSpace(libs[n - 1].pe)
  }

  /** The trampoline page of image `k`: the executable's at its import section's RVA in the region, and a library's
      at its own RVA behind all pages before it. */
  function PageAddress(exe: PeData, libs: seq<WinRuntimeObject>, base: int, k: nat): int
    requires k <= |libs|
  {
    if k == 0 then base + exe.importSectionBase
    else
      (if exe.iat == [] then 0 else base + exe.importSectionBase)
      + PAGE_SIZE + SpaceBefore(libs, k - 1) + libs[k - 1].pe.importSectionBase
  }

  lemma {:induction false} CursorIsSpace(start: nat, libs: seq<WinRuntimeObject>, n: nat)
    requires n <= |libs| && forall i :: 0 <= i < n ==> ImportsAligned(libs[i].pe)
    ensures Cursor(start, libs[..n]) == start + SpaceBefore(libs, n)
  {
    if n > 0 {
      CursorIsSpace(start, libs, n - 1);
      assert libs[..n][..n - 1] == libs[..n - 1] && libs[..n][n - 1] == libs[n - 1];
      assert ImportsAligned(libs[n - 1].pe);
    }
  }

  lemma PlacedThere(
    exe: WinRuntimeObject, files: map<string, PeData>, libs: seq<WinRuntimeObject>, base: Word, k: nat)
    requires base + UINT32_LIMIT + PAGE_SIZE < ADDRESS_LIMIT && |exe.pe.importDir| <= MAX_IMPORT_DIRECTORY
    requires exe.iatSectionBase == ExeSectionBase(exe.pe, base)
    requires LoadedDlls(exe.pe.importDir, files, exe.iatSectionBase + PAGE_SIZE) == Some(libs)
    requires SectionsAligned(libs) && k <= |libs| && Image(exe, libs, k).pe.iat != []
    ensures Image(exe, libs, k).iatSectionBase == PageAddress(exe.pe, libs, base, k)
  {
    hide LoadedDlls;
    if k > 0 {
      var start := exe.iatSectionBase + PAGE_SIZE;
      LoadedLength(exe.pe.importDir, files, start, libs);
      LoadedFields(exe.pe.importDir, files, start, libs, k - 1);
      CursorIsSpace(start, libs, k - 1);
    }
  }

  lemma {:induction false} CursorAligned(start: nat, libs: seq<WinRuntimeObject>)
    requires start % PAGE_SIZE == 0
    ensures Cursor(start, libs) % PAGE_SIZE == 0 && Cursor(start, libs) >= 0
  {
    if libs != [] {
      CursorAligned(start, libs[..|libs| - 1]);
    }
  }

  /** A load that gets through has found every trampoline page aligned. */
  lemma {:induction false} LibrariesAligned(
    m: Memory, libs: seq<WinRuntimeObject>, k: nat, callback: Word, i: nat)
    requires k <= i < |libs| && InitFrom(m, libs, k, callback).Some?
    ensures libs[i].pe.iat != [] ==> libs[i].iatSectionBase % PAGE_SIZE == 0
    decreases i - k
  {
    hide InitImage, RangeFree, RuntimeTable;
    var next := InitImage(m, libs[k], libs, callback).value;
    if k == i {
      if libs[i].pe.iat != [] {
        ImageInitialises(m, libs[i], libs, callback);
      }
    } else {
      LibrariesAligned(next, libs, k + 1, callback, i);
    }
  }

  lemma AllAligned(
    m: Memory, exe: WinRuntimeObject, files: map<string, PeData>, libs: seq<WinRuntimeObject>, base: Word,
    callback: Word)
    requires base + UINT32_LIMIT + PAGE_SIZE < ADDRESS_LIMIT && |exe.pe.importDir| <= MAX_IMPORT_DIRECTORY
    requires exe.iatSectionBase == ExeSectionBase(exe.pe, base) && base % PAGE_SIZE == 0
    requires LoadedDlls(exe.pe.importDir, files, exe.iatSectionBase + PAGE_SIZE) == Some(libs)
    requires InitAll(m, exe, libs, callback).Some?
    ensures ImportsAligned(exe.pe) && SectionsAligned(libs)
  {
    hide InitImage, InitFrom, LoadedDlls, RangeFree, RuntimeTable, PlacedAt, Cursor, Recorded;
    if exe.pe.iat != [] {
      ImageInitialises(m, exe, libs, callback);
    }
    var start := exe.iatSectionBase + PAGE_SIZE;
    assert start % PAGE_SIZE == 0 && ImportsAligned(exe.pe);
    hide ImportsAligned;
    LoadedLength(exe.pe.importDir, files, start, libs);
    forall i | 0 <= i < |libs| ensures ImportsAligned(libs[i].pe) {
      LibrariesAligned(InitImage(m, exe, libs, callback).value, libs, 0, callback, i);
      LoadedFields(exe.pe.importDir, files, start, libs, i);
      CursorAligned(start, libs[..i]);
      AlignedSection(Cursor(start, libs[..i]), libs[i]);
    }
  }

  lemma AlignedSection(cursor: int, lib: WinRuntimeObject)
    requires cursor % PAGE_SIZE == 0 && lib.iatSectionBase == PlacedAt(cursor, lib.pe)
    requires lib.pe.iat != [] ==> lib.iatSectionBase % PAGE_SIZE == 0
    ensures ImportsAligned(lib.pe)
  {
  }

  // ---------------------------------------------------------------- the whole load

  /** The page is free of everything that is mapped when initialisation starts. */
  ghost predicate PageFree(before: Memory, libs: seq<WinRuntimeObject>, page: int) {
    forall x :: page <= x < page + PAGE_SIZE ==> x !in before && !InLibraries(libs, x)
  }

  /** The import address table of image `k` can be initialised. */
  ghost predicate TableLoads(
    before: Memory, exe: PeData, libs: seq<WinRuntimeObject>, pe: PeData, k: nat, base: int, callback: Word)
    requires k <= |libs|
  {
    pe.iat != [] ==>
      && callback < UINT32_LIMIT && ImportsAligned(pe) && |pe.iat| * 8 <= PAGE_SIZE
      && (forall e :: e in pe.iat ==> EntryLoads(e, libs))
      && PageFree(before, libs, PageAddress(exe, libs, base, k))
  }

  // The objects named in the directory, with the files they come from.
  ghost predicate NamesFiles(
    libs: seq<WinRuntimeObject>, dir: seq<ImportDirectoryEntry>, files: map<string, PeData>)
  {
    && |libs| == |dir|
    && forall i :: 0 <= i < |dir| ==>
      libs[i].name == dir[i].libName && (dir[i].libName in files ==> libs[i].pe == files[dir[i].libName])
  }

  /** What it takes for a program to load, `libs` being named and filled as in its import directory. */
  ghost predicate CanLoad(
    before: Memory, exe: PeData, files: map<string, PeData>, libs: seq<WinRuntimeObject>, base: int, callback: Word)
    requires |libs| == |exe.importDir|
  {
    && (forall d :: d in exe.importDir ==> DllLoads(d, files) && d.libName != NTDLL)
    && ImagesFit(before, libs) && (forall i :: 0 <= i < |libs| ==> AvoidsRegion(libs[i].pe, base))
    && TableLoads(before, exe, libs, exe, 0, base, callback)
    && forall i :: 0 <= i < |libs| ==> TableLoads(before, exe, libs, libs[i].pe, i + 1, base, callback)
  }

  // Names and files are the same; exports and pages may differ.
  ghost predicate SameFiles(libs: seq<WinRuntimeObject>, libs': seq<WinRuntimeObject>) {
    |libs| == |libs'| && forall i :: 0 <= i < |libs| ==> libs[i].name == libs'[i].name && libs[i].pe == libs'[i].pe
  }

  lemma {:induction false} SameObject(libs: seq<WinRuntimeObject>, libs': seq<WinRuntimeObject>, name: string)
    requires SameFiles(libs, libs')
    ensures ObjectNamed(libs, name).Some? <==> ObjectNamed(libs', name).Some?
    ensures ObjectNamed(libs, name).Some? ==> ObjectNamed(libs, name).value.pe == ObjectNamed(libs', name).value.pe
  {
    if libs != [] {
      assert libs[0].name == libs'[0].name && libs[0].pe == libs'[0].pe;
      forall i | 0 <= i < |libs| - 1
        ensures libs[1..][i].name == libs'[1..][i].name && libs[1..][i].pe == libs'[1..][i].pe
      {
        assert libs[i + 1].name == libs'[i + 1].name && libs[i + 1].pe == libs'[i + 1].pe;
      }
      SameObject(libs[1..], libs'[1..], name);
    }
  }

  lemma SameVariable(e: ImportAddressEntry, libs: seq<WinRuntimeObject>, libs': seq<WinRuntimeObject>)
    requires SameFiles(libs, libs')
    ensures EntryLoads(e, libs) <==> EntryLoads(e, libs')
    ensures IsFunction(e, libs) <==> IsFunction(e, libs')
  {
    if e.libName.Some? && e.importName.Some? {
      SameObject(libs, libs', e.libName.value);
      SameKnown(libs, libs', e.libName.value);
    }
    hide ObjectNamed, SymbolNamed, LibraryKnown;
  }

  lemma SameKnown(libs: seq<WinRuntimeObject>, libs': seq<WinRuntimeObject>, name: string)
    requires SameFiles(libs, libs')
    ensures LibraryKnown(libs, name) <==> LibraryKnown(libs', name)
  {
    if i :| 0 <= i < |libs| && libs[i].name == name {
      assert libs'[i].name == name;
    }
    if i :| 0 <= i < |libs'| && libs'[i].name == name {
      assert libs[i].name == name;
    }
  }

  lemma SamePe(pe: PeData, libs: seq<WinRuntimeObject>, libs': seq<WinRuntimeObject>)
    requires SameFiles(libs, libs') && PeOk(pe, libs)
    ensures PeOk(pe, libs')
  {
    hide IsFunction;
    forall e: ImportAddressEntry ensures IsFunction(e, libs) <==> IsFunction(e, libs') {
      SameVariable(e, libs, libs');
    }
  }

  lemma SameInLibraries(libs: seq<WinRuntimeObject>, libs': seq<WinRuntimeObject>, x: int)
    requires SameFiles(libs, libs')
    ensures InLibraries(libs, x) <==> InLibraries(libs', x)
  {
    hide InImage;
    if i :| 0 <= i < |libs| && InImage(libs[i].pe, x) {
      assert InImage(libs'[i].pe, x);
    }
    if i :| 0 <= i < |libs'| && InImage(libs'[i].pe, x) {
      assert InImage(libs[i].pe, x);
    }
  }

  lemma {:induction false} SameSpace(libs: seq<WinRuntimeObject>, libs': seq<WinRuntimeObject>, n: nat)
    requires SameFiles(libs, libs') && n <= |libs|
    ensures SpaceBefore(libs, n) == SpaceBefore(libs', n)
  {
    if n > 0 {
      SameSpace(libs, libs', n - 1);
    }
  }

  lemma SameTable(
    before: Memory, exe: PeData, libs: seq<WinRuntimeObject>, libs': seq<WinRuntimeObject>, pe: PeData, k: nat,
    base: int, callback: Word)
    requires SameFiles(libs, libs') && k <= |libs|
    ensures TableLoads(before, exe, libs, pe, k, base, callback)
            <==> TableLoads(before, exe, libs', pe, k, base, callback)
  {
    hide EntryLoads, InLibraries;
    forall e: ImportAddressEntry ensures EntryLoads(e, libs) <==> EntryLoads(e, libs') {
      SameVariable(e, libs, libs');
    }
    forall x: int ensures InLibraries(libs, x) <==> InLibraries(libs', x) {
      SameInLibraries(libs, libs', x);
    }
    if k > 0 {
      SameSpace(libs, libs', k - 1);
    }
  }

  lemma SameFit(m: Memory, libs: seq<WinRuntimeObject>, libs': seq<WinRuntimeObject>, base: int)
    requires SameFiles(libs, libs')
    ensures ImagesFit(m, libs) <==> ImagesFit(m, libs')
    ensures (forall i :: 0 <= i < |libs| ==> AvoidsRegion(libs[i].pe, base)) <==>
            (forall i :: 0 <= i < |libs'| ==> AvoidsRegion(libs'[i].pe, base))
  {
    hide SectionsFit, ImagesDisjoint, AvoidsRegion;
  }

  // ---------------------------------------------------------------- when the tables are initialised

  lemma RegionClear(before: Memory, libs: seq<WinRuntimeObject>, base: Word, mapped: Memory, x: int)
    requires RangeFree(before, base, RESERVED_SIZE) && AllInSpace(libs)
    requires ImagesMapped(Reserved(before, base), libs) == Some(mapped) && base <= x < base + RESERVED_SIZE
    ensures x !in before && !InLibraries(libs, x)
  {
    hide ImagesMapped, SectionExtent;
    ImagesComeIn(Reserved(before, base), libs, mapped);
    assert x in Reserved(before, base);
  }

  lemma PageFreeWhen(before: Memory, libs: seq<WinRuntimeObject>, base: Word, mapped: Memory, page: int)
    requires RangeFree(before, base, RESERVED_SIZE) && AllInSpace(libs)
    requires ImagesMapped(Reserved(before, base), libs) == Some(mapped)
    ensures RangeFree(Released(mapped, base), page, PAGE_SIZE) <==> PageFree(before, libs, page)
  {
    hide ImagesMapped, InLibraries, Reserved, Released;
    StartsThere(before, libs, base, mapped);
    forall x | page <= x < page + PAGE_SIZE
      ensures x in Released(mapped, base) <==> x in before || InLibraries(libs, x)
    {
      if base <= x < base + RESERVED_SIZE {
        RegionClear(before, libs, base, mapped, x);
      }
    }
  }

  lemma PlacedApart(exe: WinRuntimeObject, libs: seq<WinRuntimeObject>, base: Word, i: nat, k: nat)
    requires Placement(exe, libs, base) && i < k <= |libs|
    ensures WinDispatch.PagesApart(Image(exe, libs, i), Image(exe, libs, k))
  {
  }

  // Everything before the tables has succeeded.
  ghost predicate DllsIn(
    before: Memory, exe: WinRuntimeObject, files: map<string, PeData>, libs: seq<WinRuntimeObject>, base: Word,
    mapped: Memory)
  {
    && base + UINT32_LIMIT + PAGE_SIZE < ADDRESS_LIMIT && |exe.pe.importDir| <= MAX_IMPORT_DIRECTORY
    && exe.iatSectionBase == ExeSectionBase(exe.pe, base) && ReadyToLoad(before, exe, base)
    && LoadedDlls(exe.pe.importDir, files, exe.iatSectionBase + PAGE_SIZE) == Some(libs)
    && ImagesMapped(Reserved(before, base), libs) == Some(mapped)
    && forall i :: 0 <= i <= |libs| ==> PeOk(Image(exe, libs, i).pe, libs)
  }

  lemma OneTable(
    before: Memory, exe: WinRuntimeObject, files: map<string, PeData>, libs: seq<WinRuntimeObject>, base: Word,
    mapped: Memory, callback: Word, k: nat)
    requires DllsIn(before, exe, files, libs, base, mapped) && ImportsAligned(exe.pe) && SectionsAligned(libs)
    requires AllInSpace(libs) && Placement(exe, libs, base) && k <= |libs|
    ensures CanInit(Released(mapped, base), exe, libs, k, callback) <==>
      && (k > 0 ==> libs[k - 1].name != NTDLL)
      && TableLoads(before, exe.pe, libs, Image(exe, libs, k).pe, k, base, callback)
  {
    hide ImagesMapped, LoadedDlls, Released, Reserved, PeOk, Placement, RangeFree, PageFree, PageAddress, RuntimeTable;
    hide EntryLoads, InMemory, ExeSectionBase, RegionBase, ImageInSpace;
    var o := Image(exe, libs, k);
    assert RangeFree(before, base, RESERVED_SIZE);
    if o.pe.iat != [] {
      PlacedThere(exe, files, libs, base, k);
      PageFreeWhen(before, libs, base, mapped, o.iatSectionBase);
      TableLoadsWhen(o.pe.iat, libs, o.pe.imageBase, RegionBase(o));
      forall i | 0 <= i < k ensures WinDispatch.PagesApart(Image(exe, libs, i), o) {
        PlacedApart(exe, libs, base, i, k);
      }
      assert ImportsAligned(o.pe);
    }
  }

  lemma TablesLoadWhen(
    before: Memory, exe: WinRuntimeObject, files: map<string, PeData>, libs: seq<WinRuntimeObject>, base: Word,
    mapped: Memory, callback: Word)
    requires DllsIn(before, exe, files, libs, base, mapped)
    ensures InitAll(Released(mapped, base), exe, libs, callback).Some? <==>
      && (forall i :: 0 <= i < |libs| ==> libs[i].name != NTDLL)
      && TableLoads(before, exe.pe, libs, exe.pe, 0, base, callback)
      && forall i :: 0 <= i < |libs| ==> TableLoads(before, exe.pe, libs, libs[i].pe, i + 1, base, callback)
  {
    hide ImagesMapped, LoadedDlls, Released, Reserved, PeOk, Placement, RangeFree, PageFree, PageAddress, RuntimeTable;
    hide EntryLoads, InMemory, ExeSectionBase, InitAll, WellPlaced, CanInit, ImageInSpace, ImagesApart;
    var m := Released(mapped, base);
    if ImportsAligned(exe.pe) && SectionsAligned(libs) {
      forall i | 0 <= i < |libs| ensures ImageInSpace(libs[i].pe) {
        assert Image(exe, libs, i + 1) == libs[i];
        PeInSpace(libs[i].pe, libs);
      }
      StartPlaced(before, exe, files, libs, base, mapped);
      InitSucceeds(m, exe, libs, callback);
      forall k: nat | k <= |libs|
        ensures CanInit(m, exe, libs, k, callback) <==>
          && (k > 0 ==> libs[k - 1].name != NTDLL)
          && TableLoads(before, exe.pe, libs, Image(exe, libs, k).pe, k, base, callback)
      {
        OneTable(before, exe, files, libs, base, mapped, callback, k);
      }
      ByImage(before, m, exe, libs, base, callback);
    } else if InitAll(m, exe, libs, callback).Some? {
      AllAligned(m, exe, files, libs, base, callback);
    }
  }

  lemma ByImage(
    before: Memory, m: Memory, exe: WinRuntimeObject, libs: seq<WinRuntimeObject>, base: Word, callback: Word)
    requires forall k: nat :: k <= |libs| ==>
      (CanInit(m, exe, libs, k, callback) <==>
        && (k > 0 ==> libs[k - 1].name != NTDLL)
        && TableLoads(before, exe.pe, libs, Image(exe, libs, k).pe, k, base, callback))
    ensures CanInitFrom(m, exe, libs, 0, callback) <==>
      && (forall i :: 0 <= i < |libs| ==> libs[i].name != NTDLL)
      && TableLoads(before, exe.pe, libs, exe.pe, 0, base, callback)
      && forall i :: 0 <= i < |libs| ==> TableLoads(before, exe.pe, libs, libs[i].pe, i + 1, base, callback)
  {
    hide CanInit, TableLoads;
    if CanInitFrom(m, exe, libs, 0, callback) {
      assert CanInit(m, exe, libs, 0, callback);
      forall i | 0 <= i < |libs|
        ensures libs[i].name != NTDLL && TableLoads(before, exe.pe, libs, libs[i].pe, i + 1, base, callback)
      {
        assert CanInit(m, exe, libs, i + 1, callback);
      }
    }
    if && (forall i :: 0 <= i < |libs| ==> libs[i].name != NTDLL)
       && TableLoads(before, exe.pe, libs, exe.pe, 0, base, callback)
       && forall i :: 0 <= i < |libs| ==> TableLoads(before, exe.pe, libs, libs[i].pe, i + 1, base, callback) {
      forall k: nat | k <= |libs| ensures CanInit(m, exe, libs, k, callback) {
        if k > 0 {
          assert TableLoads(before, exe.pe, libs, libs[k - 1].pe, k - 1 + 1, base, callback);
        }
      }
    }
  }

  // ---------------------------------------------------------------- when a program loads

  /** The images of a program, by the names of its import directory, have tables in order inside their sections and
      function imports seven bytes apart. */
  ghost predicate FilesOk(exe: PeData, libs: seq<WinRuntimeObject>) {
    PeOk(exe, libs) && forall i :: 0 <= i < |libs| ==> PeOk(libs[i].pe, libs)
  }

  /** The state before the DLLs are loaded: the executable is mapped, nothing is where the region is reserved. */
  ghost predicate BeforeDlls(before: Memory, exe: PeData, base: int) {
    && 0 < base && base % PAGE_SIZE == 0 && base + UINT32_LIMIT + PAGE_SIZE < ADDRESS_LIMIT
    && |exe.importDir| <= MAX_IMPORT_DIRECTORY
    && RangeFree(before, base, RESERVED_SIZE) && InMemory(before, exe)
  }

  /** The DLL part and the table part of `Load` together. */
  ghost predicate LoadsFrom(
    before: Memory, exe: WinRuntimeObject, files: map<string, PeData>, base: Word, callback: Word)
    requires base + UINT32_LIMIT + PAGE_SIZE < ADDRESS_LIMIT
  {
    match DllsLoaded(Reserved(before, base), exe.pe.importDir, files, ExeSectionBase(exe.pe, base) + PAGE_SIZE)
    case None => false
    case Some((dlls, mapped)) => InitAll(Released(mapped, base), exe, dlls, callback).Some?
  }

  /** A program loads exactly when every DLL of its import directory has a file and is not ntdll.dll, exports the names
      imported from it, and fits into memory beside the others and the reserved region; and when every import address
      table has a page-aligned import section, values for all its entries and room in a page that is free. */
  lemma LoadSucceeds(
    before: Memory, exe: WinRuntimeObject, files: map<string, PeData>, named: seq<WinRuntimeObject>, base: Word,
    callback: Word)
    requires BeforeDlls(before, exe.pe, base) && exe.iatSectionBase == ExeSectionBase(exe.pe, base)
    requires NamesFiles(named, exe.pe.importDir, files) && FilesOk(exe.pe, named)
    ensures LoadsFrom(before, exe, files, base, callback) <==> CanLoad(before, exe.pe, files, named, base, callback)
  {
    hide LoadedDlls, ImagesMapped, InitAll, DllLoads, ImagesFit, AvoidsRegion, TableLoads, PeOk, InMemory, RangeFree;
    hide Reserved, Released, ExeSectionBase;
    var dir, start := exe.pe.importDir, exe.iatSectionBase + PAGE_SIZE;
    LoadedWhen(dir, files, start);
    if LoadedDlls(dir, files, start).Some? {
      var libs := LoadedDlls(dir, files, start).value;
      LoadedAreNamed(exe, files, libs, named, base);
      LoadedLoad(before, exe, files, libs, named, base, callback);
    }
  }

  lemma LoadedAreNamed(
    exe: WinRuntimeObject, files: map<string, PeData>, libs: seq<WinRuntimeObject>, named: seq<WinRuntimeObject>,
    base: Word)
    requires base + UINT32_LIMIT + PAGE_SIZE < ADDRESS_LIMIT && |exe.pe.importDir| <= MAX_IMPORT_DIRECTORY
    requires exe.iatSectionBase == ExeSectionBase(exe.pe, base)
    requires LoadedDlls(exe.pe.importDir, files, exe.iatSectionBase + PAGE_SIZE) == Some(libs)
    requires NamesFiles(named, exe.pe.importDir, files)
    ensures SameFiles(libs, named) && |libs| == |exe.pe.importDir|
    ensures forall i :: 0 <= i < |libs| ==> libs[i].name == exe.pe.importDir[i].libName
  {
    hide LoadedDlls;
    var start := exe.iatSectionBase + PAGE_SIZE;
    LoadedLength(exe.pe.importDir, files, start, libs);
    forall i | 0 <= i < |libs|
      ensures libs[i].name == named[i].name == exe.pe.importDir[i].libName && libs[i].pe == named[i].pe
    {
      LoadedFields(exe.pe.importDir, files, start, libs, i);
    }
  }

  lemma LoadedLoad(
    before: Memory, exe: WinRuntimeObject, files: map<string, PeData>, libs: seq<WinRuntimeObject>,
    named: seq<WinRuntimeObject>, base: Word, callback: Word)
    requires BeforeDlls(before, exe.pe, base) && exe.iatSectionBase == ExeSectionBase(exe.pe, base)
    requires LoadedDlls(exe.pe.importDir, files, exe.iatSectionBase + PAGE_SIZE) == Some(libs)
    requires SameFiles(libs, named) && FilesOk(exe.pe, named) && |libs| == |exe.pe.importDir|
    requires forall i :: 0 <= i < |libs| ==> libs[i].name == exe.pe.importDir[i].libName
    requires forall d :: d in exe.pe.importDir ==> DllLoads(d, files)
    ensures LoadsFrom(before, exe, files, base, callback) <==> CanLoad(before, exe.pe, files, named, base, callback)
  {
    hide LoadedDlls, ImagesMapped, InitAll, DllLoads, ImagesFit, AvoidsRegion, TableLoads, PeOk, InMemory, RangeFree;
    hide Reserved, Released, ExeSectionBase, ImageInSpace;
    FilesOfLibraries(exe.pe, libs, named);
    SameFit(before, libs, named, base);
    AllFitBesideRegion(before, base, libs);
    ImagesMapWhen(Reserved(before, base), libs);
    SameTable(before, exe.pe, libs, named, exe.pe, 0, base, callback);
    forall i | 0 <= i < |libs|
      ensures TableLoads(before, exe.pe, libs, libs[i].pe, i + 1, base, callback)
         <==> TableLoads(before, exe.pe, named, named[i].pe, i + 1, base, callback)
    {
      SameTable(before, exe.pe, libs, named, libs[i].pe, i + 1, base, callback);
    }
    if ImagesMapped(Reserved(before, base), libs).Some? {
      var mapped := ImagesMapped(Reserved(before, base), libs).value;
      forall i | 0 <= i <= |libs| ensures PeOk(Image(exe, libs, i).pe, libs) {}
      TablesLoadWhen(before, exe, files, libs, base, mapped, callback);
    }
    NotNtdll(exe.pe.importDir, libs);
  }

  lemma NotNtdll(dir: seq<ImportDirectoryEntry>, libs: seq<WinRuntimeObject>)
    requires |libs| == |dir| && forall i :: 0 <= i < |libs| ==> libs[i].name == dir[i].libName
    ensures (forall i :: 0 <= i < |libs| ==> libs[i].name != NTDLL) <==> forall d :: d in dir ==> d.libName != NTDLL
  {
    if forall d :: d in dir ==> d.libName != NTDLL {
      forall i | 0 <= i < |libs| ensures libs[i].name != NTDLL {
        assert dir[i] in dir;
      }
    }
    if forall i :: 0 <= i < |libs| ==> libs[i].name != NTDLL {
      forall d | d in dir ensures d.libName != NTDLL {
        var i :| 0 <= i < |dir| && dir[i] == d;
        assert libs[i].name == d.libName;
      }
    }
  }

  lemma FilesOfLibraries(exe: PeData, libs: seq<WinRuntimeObject>, named: seq<WinRuntimeObject>)
    requires SameFiles(libs, named) && FilesOk(exe, named)
    ensures FilesOk(exe, libs) && AllInSpace(libs)
  {
    hide PeOk;
    assert SameFiles(named, libs);
    SamePe(exe, named, libs);
    forall i | 0 <= i < |libs| ensures PeOk(libs[i].pe, libs) && ImageInSpace(libs[i].pe) {
      SamePe(named[i].pe, named, libs);
      PeInSpace(libs[i].pe, libs);
    }
  }

  // ---------------------------------------------------------------- the executable, and the loader as a whole

  /** The executable can be mapped: its header page and its sections fit and keep apart. */
  ghost predicate ExeFits(m: Memory, pe: PeData, headersSize: nat) {
    && 0 < headersSize <= 0x1000 && pe.imageBase % PAGE_SIZE == 0 && RangeFree(m, pe.imageBase, PAGE_SIZE)
    && SectionsFit(m, pe)
    && forall k: nat :: k < |pe.sections| ==>
      Apart(pe.imageBase, PAGE_SIZE, SectionStart(pe, k), SectionExtent(pe, k))
  }

  lemma HeaderPage(m: Memory, pe: PeData, headersSize: Dword)
    requires headersSize <= 0x1000 && pe.imageBase < ADDRESS_LIMIT
    ensures var r := HeaderRegion(pe, headersSize);
      && (Mappable(m, r) <==> headersSize > 0 && pe.imageBase % PAGE_SIZE == 0 && RangeFree(m, pe.imageBase, PAGE_SIZE))
      && (headersSize > 0 ==> MappedLength(r) == PAGE_SIZE) && r.start == pe.imageBase
  {
    var r := HeaderRegion(pe, headersSize);
    assert Wrap(r.end - r.start) == headersSize;
    hide Wrap, RangeFree;
  }

  lemma ExeMapsWhen(m: Memory, pe: PeData, headersSize: Dword)
    requires ImageInSpace(pe) && pe.imageBase < ADDRESS_LIMIT
    ensures ExeMapped(m, pe, headersSize).Some? <==> ExeFits(m, pe, headersSize)
  {
    hide MapFrom, FillFrom, BssCleared, SectionRegion, Mappable, MappedLength, SectionExtent, SectionsFit, HeaderRegion;
    if headersSize <= 0x1000 {
      var r := HeaderRegion(pe, headersSize);
      HeaderPage(m, pe, headersSize);
      var own, all := ImageRegions(pe, []), ImageRegions(pe, [r]);
      MapSucceeds(m, own, pe.file, 0);
      MapSucceeds(m, all, pe.file, 0);
      ImageMapsWhen(m, pe);
      assert all == [r] + own;
      WithHeader(m, r, own);
      forall k: nat | k < |pe.sections|
        ensures own[k].start == SectionStart(pe, k) && MappedLength(own[k]) == SectionExtent(pe, k)
      {
        RegionOfSection(pe, [], k);
      }
    }
  }

  lemma WithHeader(m: Memory, r: MemoryRegion, own: seq<MemoryRegion>)
    ensures AllMappable(m, [r] + own, 0) <==>
      Mappable(m, r) && AllMappable(m, own, 0) && forall k :: 0 <= k < |own| ==> RegionsApart(r, own[k])
  {
    hide Mappable, RegionsApart;
    var all := [r] + own;
    if AllMappable(m, all, 0) {
      assert Mappable(m, all[0]);
      forall k | 0 <= k < |own| ensures Mappable(m, own[k]) && RegionsApart(r, own[k]) {
        assert Mappable(m, all[k + 1]) && RegionsApart(all[0], all[k + 1]);
      }
      forall i, j | 0 <= i < j < |own| ensures RegionsApart(own[i], own[j]) {
        assert RegionsApart(all[i + 1], all[j + 1]);
      }
    }
  }

  /** `main` from mapping the executable to its last import address table; `loadNtdll` stands for loading
      libntdll.so in between, which changes nothing that is mapped. On well-formed files, with the region reserved
      where nothing was mapped, it succeeds exactly when the program can be loaded, and the program is then loaded. */
  method LoadProgram(
    loader: Loader, filename: string, pe: PeData, headersSize: Dword, loadNtdll: Memory -> Option<Memory>,
    files: map<string, PeData>, base: Word, ghost named: seq<WinRuntimeObject>)
    returns (ok: bool, ghost p: Program)
    requires 0 < base && base % PAGE_SIZE == 0 && base + UINT32_LIMIT + PAGE_SIZE < ADDRESS_LIMIT
    requires |pe.importDir| <= MAX_IMPORT_DIRECTORY
    requires forall m: Memory :: loadNtdll(m).Some? ==> Grows(m, loadNtdll(m).value)
    modifies loader
    ensures ok ==> IsRunOf(loader, p) && p.exe.pe == pe && p.files == files
    ensures ok ==> ExecutableIn(p, old(loader.memory), headersSize)
    ensures ok ==> loadNtdll(ExeMapped(old(loader.memory), pe, headersSize).value) == Some(p.before)
    ensures ok && ProgramOk(p.exe, p.libs) && RangeFree(p.before, base, RESERVED_SIZE) ==> Loaded(p)
    ensures NamesFiles(named, pe.importDir, files) && FilesOk(pe, named) && pe.imageBase < ADDRESS_LIMIT ==>
      match ExeMapped(old(loader.memory), pe, headersSize)
      case None => !ok && !ExeFits(old(loader.memory), pe, headersSize)
      case Some(own) =>
        && ExeFits(old(loader.memory), pe, headersSize)
        && match loadNtdll(own)
           case None => !ok
           case Some(before) =>
             RangeFree(before, base, RESERVED_SIZE) ==>
               (ok <==> CanLoad(before, pe, files, named, base, loader.callback))
  {
    hide ExeMapped, DllsLoaded, InitAll, Reserved, Released, ProgramOk, InMemory, Grows, RangeFree, ExeFits, PeOk;
    hide CanLoad, NamesFiles;
    ghost var start := loader.memory;
    if FilesOk(pe, named) && pe.imageBase < ADDRESS_LIMIT {
      PeInSpace(pe, named);
      ExeMapsWhen(start, pe, headersSize);
    }
    p := Program(loader.memory, loader.exe, files, [], base, loader.callback, loader.memory);
    ok := loader.MapExecutable(pe, headersSize);
    if !ok {
      return;
    }
    ghost var mapped := loader.memory;
    var loaded := loadNtdll(loader.memory);
    if loaded == None {
      return false, p;
    }
    loader.memory := loaded.value;
    ghost var before := loader.memory;
    if ImageInSpace(pe) {
      ExecutableComesIn(start, pe, headersSize, mapped, before);
    }
    ghost var exe := WinRuntimeObject(filename, pe, [], ExeSectionBase(pe, base));
    if RangeFree(before, base, RESERVED_SIZE) && NamesFiles(named, pe.importDir, files) && FilesOk(pe, named) {
      PeInSpace(pe, named);
      LoadSucceeds(before, exe, files, named, base, loader.callback);
    }
    ok := loader.Load(filename, pe, files, base);
    p := Program(before, loader.exe, files, loader.libs, base, loader.callback, loader.memory);
    if ok && ProgramOk(p.exe, p.libs) {
      FileOfImage(p.exe, p.libs, 0);
    }
  }
}
