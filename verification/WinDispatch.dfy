/** From a trampoline back to the imported function: the page layout, the lookup of the callback,
    and exactly when the function found is the one the import names. */
module WinDispatch {
  import opened Words
  import opened AddressSpace
  import opened ElfTypes
  import opened PeSections
  import opened WinImages
  import opened WinIat
  import opened WinLoader
  import opened WinInstall

  // ---------------------------------------------------------------- the layout of the trampoline pages

  lemma {:induction false} LoadedAt(
    dir: seq<ImportDirectoryEntry>, files: map<string, PeData>, cursor: int, libs: seq<WinRuntimeObject>, i: nat)
    requires LoadedDlls(dir, files, cursor) == Some(libs) && i < |dir|
    ensures |libs| == |dir|
    ensures LoadedDll(dir[i], files, Cursor(cursor, libs[..i])) == Some(libs[i])
  {
    var n := |dir| - 1;
    assert |libs| == |dir| by { LoadedLength(dir, files, cursor, libs); }
    var init := LoadedDlls(dir[..n], files, cursor).value;
    assert libs[..n] == init by { LoadedLength(dir[..n], files, cursor, init); }
    if i < n {
      LoadedAt(dir[..n], files, cursor, init, i);
      assert init[..i] == libs[..i];
    }
  }

  lemma {:induction false} LoadedLength(
    dir: seq<ImportDirectoryEntry>, files: map<string, PeData>, cursor: int, libs: seq<WinRuntimeObject>)
    requires LoadedDlls(dir, files, cursor) == Some(libs)
    ensures |libs| == |dir|
  {
    if dir != [] {
      LoadedLength(dir[..|dir| - 1], files, cursor, LoadedDlls(dir[..|dir| - 1], files, cursor).value);
    }
  }

  /** The fields of a loaded library. */
  lemma LoadedFields(
    dir: seq<ImportDirectoryEntry>, files: map<string, PeData>, cursor: nat, libs: seq<WinRuntimeObject>, i: nat)
    requires cursor < ADDRESS_LIMIT && |dir| <= MAX_IMPORT_DIRECTORY
    requires LoadedDlls(dir, files, cursor) == Some(libs) && i < |dir|
    ensures |libs| == |dir| && dir[i].libName in files
    ensures libs[i].name == dir[i].libName && libs[i].pe == files[dir[i].libName]
    ensures Recorded(dir[i].imports, libs[i].pe) == Some(libs[i].exports)
    ensures libs[i].iatSectionBase == PlacedAt(Cursor(cursor, libs[..i]), libs[i].pe)
  {
    hide LoadedDlls;
    LoadedAt(dir, files, cursor, libs, i);
    CursorBound(cursor, libs[..i]);
  }

  // An image with import slots has a page-aligned import section.
  predicate ImportsAligned(pe: PeData) {
    pe.iat != [] ==> pe.importSectionBase % PAGE_SIZE == 0
  }

  predicate SectionsAligned(libs: seq<WinRuntimeObject>) {
    forall i | 0 <= i < |libs| :: ImportsAligned(libs[i].pe)
  }

  predicate InOrder(libs: seq<WinRuntimeObject>, low: int, high: int) {
    && (forall i | 0 <= i < |libs| && libs[i].pe.iat != [] ::
          && libs[i].iatSectionBase % PAGE_SIZE == 0
          && low <= libs[i].iatSectionBase && libs[i].iatSectionBase + PAGE_SIZE <= high)
    && (forall i, j | 0 <= i < j < |libs| && libs[i].pe.iat != [] && libs[j].pe.iat != [] ::
          libs[i].iatSectionBase + PAGE_SIZE <= libs[j].iatSectionBase)
  }

  /** The pages are aligned, strictly increasing and disjoint, and the search for the next free page
      stops exactly one page above the one just placed. */
  lemma {:induction false} PagesInOrder(
    dir: seq<ImportDirectoryEntry>, files: map<string, PeData>, cursor: nat, libs: seq<WinRuntimeObject>)
    requires cursor < ADDRESS_LIMIT && cursor % PAGE_SIZE == 0 && |dir| <= MAX_IMPORT_DIRECTORY
    requires LoadedDlls(dir, files, cursor) == Some(libs) && SectionsAligned(libs)
    ensures InOrder(libs, cursor, Cursor(cursor, libs))
    ensures Cursor(cursor, libs) % PAGE_SIZE == 0
    ensures libs != [] && libs[|libs| - 1].pe.iat != [] ==>
              Cursor(cursor, libs) == libs[|libs| - 1].iatSectionBase + PAGE_SIZE
  {
    LoadedLength(dir, files, cursor, libs);
    if dir != [] {
      var n := |dir| - 1;
      LoadedFields(dir, files, cursor, libs, n);
      var init := LoadedDlls(dir[..n], files, cursor).value;
      LoadedLength(dir[..n], files, cursor, init);
      assert libs == init + [libs[n]];
      assert SectionsAligned(init) by {
        forall i | 0 <= i < n ensures ImportsAligned(init[i].pe) { assert init[i] == libs[i]; }
      }
      PagesInOrder(dir[..n], files, cursor, init);
      CursorBound(cursor, init);
      AlignedStep(Cursor(cursor, init), libs[n].pe);
      InOrderExtends(init, libs[n], cursor, Cursor(cursor, init));
    }
  }

  lemma InOrderExtends(init: seq<WinRuntimeObject>, last: WinRuntimeObject, low: nat, high: nat)
    requires InOrder(init, low, high) && low <= high && high % PAGE_SIZE == 0
    requires ImportsAligned(last.pe) && last.iatSectionBase == PlacedAt(high, last.pe)
    ensures InOrder(init + [last], low, CursorAfter(high, last.pe))
  {
    var libs := init + [last];
    AlignedStep(high, last.pe);
    forall i | 0 <= i < |libs| && libs[i].pe.iat != []
      ensures libs[i].iatSectionBase % PAGE_SIZE == 0 && low <= libs[i].iatSectionBase
      ensures libs[i].iatSectionBase + PAGE_SIZE <= CursorAfter(high, last.pe)
      ensures i < |init| ==> libs[i].iatSectionBase + PAGE_SIZE <= high
    {
      if i < |init| { assert libs[i] == init[i]; }
    }
    forall i, j | 0 <= i < j < |libs| && libs[i].pe.iat != [] && libs[j].pe.iat != []
      ensures libs[i].iatSectionBase + PAGE_SIZE <= libs[j].iatSectionBase
    {
      assert libs[i] == init[i];
      if j < |init| { assert libs[j] == init[j]; }
    }
  }

  lemma AlignedStep(cursor: nat, pe: PeData)
    requires cursor % PAGE_SIZE == 0 && ImportsAligned(pe)
    ensures CursorAfter(cursor, pe) % PAGE_SIZE == 0
    ensures pe.iat != [] ==>
      CursorAfter(cursor, pe) == PlacedAt(cursor, pe) + PAGE_SIZE && PlacedAt(cursor, pe) % PAGE_SIZE == 0
  {
  }

  // ---------------------------------------------------------------- when initialisation succeeds

  predicate InPage(o: WinRuntimeObject, x: int) {
    o.pe.iat != [] && o.iatSectionBase <= x < o.iatSectionBase + PAGE_SIZE
  }

  ghost predicate PagesApart(o: WinRuntimeObject, p: WinRuntimeObject) {
    o.pe.iat != [] && p.pe.iat != [] ==> Apart(o.iatSectionBase, PAGE_SIZE, p.iatSectionBase, PAGE_SIZE)
  }

  /** Initialising an image maps its page and nothing else. */
  lemma MapsOnlyThePage(m: Memory, o: WinRuntimeObject, libs: seq<WinRuntimeObject>, callback: Word, m1: Memory, x: int)
    requires ImageOk(o, libs) && SlotsMapped(m, o) && InitImage(m, o, libs, callback) == Some(m1)
    ensures x in m1 <==> x in m || InPage(o, x)
  {
    hide EntryPatches, TablePatches, InitImage, ImageOk, RuntimeEntry, RegionBase;
    if o.pe.iat == [] {
      NothingInitialised(m, o, libs, callback);
    } else {
      var t := InitialisedImage(m, o, libs, callback, m1);
      var m2 := FreshPage(m, o.iatSectionBase);
      if x in m2 {
        ApplyMapped(m2, TablePatches(t, callback), x);
      } else {
        forall i | 0 <= i < |t| && t[i].value != 0
          ensures Apart(t[i].key, 8, x, 1) && (!t[i].isVariable ==> Apart(t[i].value, TRAMPOLINE_SIZE, x, 1))
        {
          assert RuntimeEntry(o.pe.iat[i], libs, o.pe.imageBase, RegionBase(o)) == Some(t[i]);
          SlotAvoids(m, o, i, x);
          EntryAvoids(o, libs, i, t[i], x, 1);
        }
        TableMisses(m2, t, callback, x);
      }
    }
  }

  lemma SlotAvoids(m: Memory, o: WinRuntimeObject, i: nat, x: int)
    requires SlotsMapped(m, o) && i < |o.pe.iat| && x !in m
    ensures Apart(o.pe.imageBase + o.pe.iat[i].key, 8, x, 1)
  {
    assert SlotMapped(m, o, i);
  }

  lemma {:induction false} TableMisses(m: Memory, t: seq<RuntimeImport>, callback: Word, x: int)
    requires x !in m
    requires forall i :: 0 <= i < |t| && t[i].value != 0 ==>
      Apart(t[i].key, 8, x, 1) && (!t[i].isVariable ==> Apart(t[i].value, TRAMPOLINE_SIZE, x, 1))
    ensures x !in Apply(m, TablePatches(t, callback))
  {
    hide LeBytes, TrampolineCode, WriteBytes;
    if t != [] {
      var n := |t| - 1;
      TableMisses(m, t[..n], callback, x);
      ApplyConcat(m, TablePatches(t[..n], callback), EntryPatches(t[n], callback));
      ApplyFrame(Apply(m, TablePatches(t[..n], callback)), EntryPatches(t[n], callback), x);
    }
  }

  // What the loader checks of one image, plus a free page among those already placed.
  ghost predicate CanInit(
    m0: Memory, exe: WinRuntimeObject, libs: seq<WinRuntimeObject>, k: nat, callback: Word)
    requires k <= |libs|
  {
    var o := Image(exe, libs, k);
    && (k > 0 ==> o.name != NTDLL)
    && (o.pe.iat != [] ==>
          && callback < UINT32_LIMIT
          && RuntimeTable(o.pe.iat, libs, o.pe.imageBase, RegionBase(o)).Some?
          && |o.pe.iat| * 8 <= PAGE_SIZE
          && RangeFree(m0, o.iatSectionBase, PAGE_SIZE)
          && forall i :: 0 <= i < k ==> PagesApart(Image(exe, libs, i), o))
  }

  ghost predicate MappedUpTo(m0: Memory, m: Memory, exe: WinRuntimeObject, libs: seq<WinRuntimeObject>, n: nat)
    requires n <= |libs| + 1
  {
    forall x :: x in m <==> x in m0 || exists i :: 0 <= i < n && InPage(Image(exe, libs, i), x)
  }

  lemma ImageSucceeds(
    m0: Memory, m: Memory, exe: WinRuntimeObject, libs: seq<WinRuntimeObject>, k: nat, callback: Word)
    requires k <= |libs| && WellPlaced(m0, exe, libs) && MappedUpTo(m0, m, exe, libs, k)
    requires k > 0 ==> libs[k - 1].name != NTDLL
    ensures InitImage(m, Image(exe, libs, k), libs, callback).Some? <==> CanInit(m0, exe, libs, k, callback)
  {
    var o := Image(exe, libs, k);
    if o.pe.iat != [] {
      ImageInitialises(m, o, libs, callback);
      assert ImageOk(o, libs);
      hide InitImage, WellPlaced, RuntimeTable;
      var low := o.iatSectionBase;
      if CanInit(m0, exe, libs, k, callback) {
        forall x | low <= x < low + PAGE_SIZE ensures x !in m {
          forall i | 0 <= i < k ensures !InPage(Image(exe, libs, i), x) {
            assert PagesApart(Image(exe, libs, i), o);
          }
        }
      }
      if RangeFree(m, low, PAGE_SIZE) {
        forall i | 0 <= i < k ensures PagesApart(Image(exe, libs, i), o) {
          var p := Image(exe, libs, i);
          if p.pe.iat != [] {
            var x := if p.iatSectionBase < low then low else p.iatSectionBase;
            assert InPage(p, x) ==> x in m;
          }
        }
        assert RangeFree(m0, low, PAGE_SIZE);
      }
    }
  }

  lemma MappedNext(
    m0: Memory, m: Memory, exe: WinRuntimeObject, libs: seq<WinRuntimeObject>, k: nat, callback: Word, m1: Memory)
    requires k <= |libs| && WellPlaced(m0, exe, libs) && MappedUpTo(m0, m, exe, libs, k)
    requires InitImage(m, Image(exe, libs, k), libs, callback) == Some(m1)
    ensures MappedUpTo(m0, m1, exe, libs, k + 1)
  {
    hide InitImage, ImageOk, ImagesApart;
    var o := Image(exe, libs, k);
    assert ImageOk(o, libs) && SlotsMapped(m0, o);
    assert SlotsMapped(m, o) by {
      forall j | 0 <= j < |o.pe.iat| ensures SlotMapped(m, o, j) { assert SlotMapped(m0, o, j); }
    }
    forall x ensures x in m1 <==> x in m0 || exists i :: 0 <= i < k + 1 && InPage(Image(exe, libs, i), x) {
      MapsOnlyThePage(m, o, libs, callback, m1, x);
      if x in m1 && x !in m0 {
        if x in m {
          var i :| 0 <= i < k && InPage(Image(exe, libs, i), x);
        } else {
          assert InPage(Image(exe, libs, k), x);
        }
      }
    }
  }

  ghost predicate CanInitFrom(
    m0: Memory, exe: WinRuntimeObject, libs: seq<WinRuntimeObject>, k: nat, callback: Word)
  {
    forall i :: k <= i <= |libs| ==> CanInit(m0, exe, libs, i, callback)
  }

  lemma CanInitStep(m0: Memory, exe: WinRuntimeObject, libs: seq<WinRuntimeObject>, k: nat, callback: Word)
    requires k <= |libs|
    ensures CanInitFrom(m0, exe, libs, k, callback) <==>
            CanInit(m0, exe, libs, k, callback) && CanInitFrom(m0, exe, libs, k + 1, callback)
  {
  }

  lemma {:induction false} LibrariesSucceed(
    m0: Memory, m: Memory, exe: WinRuntimeObject, libs: seq<WinRuntimeObject>, k: nat, callback: Word)
    requires k <= |libs| && WellPlaced(m0, exe, libs) && MappedUpTo(m0, m, exe, libs, k + 1)
    ensures InitFrom(m, libs, k, callback).Some? <==> CanInitFrom(m0, exe, libs, k + 1, callback)
    decreases |libs| - k
  {
    hide InitImage, WellPlaced, MappedUpTo, RangeFree, RuntimeTable;
    if k < |libs| {
      CanInitStep(m0, exe, libs, k + 1, callback);
      var o := Image(exe, libs, k + 1);
      if o.name != NTDLL {
        ImageSucceeds(m0, m, exe, libs, k + 1, callback);
        if InitImage(m, o, libs, callback).Some? {
          var next := InitImage(m, o, libs, callback).value;
          MappedNext(m0, m, exe, libs, k + 1, callback, next);
          LibrariesSucceed(m0, next, exe, libs, k + 1, callback);
        }
      }
    }
  }

  /** Initialisation succeeds exactly when every image passes the loader's own checks and the pages
      are free and pairwise apart: no load fails for what was written for an earlier image. */
  lemma InitSucceeds(m: Memory, exe: WinRuntimeObject, libs: seq<WinRuntimeObject>, callback: Word)
    requires WellPlaced(m, exe, libs)
    ensures InitAll(m, exe, libs, callback).Some? <==> CanInitFrom(m, exe, libs, 0, callback)
  {
    CanInitStep(m, exe, libs, 0, callback);
    assert MappedUpTo(m, m, exe, libs, 0);
    ImageSucceeds(m, m, exe, libs, 0, callback);
    assert Image(exe, libs, 0) == exe;
    if InitImage(m, exe, libs, callback).Some? {
      var next := InitImage(m, exe, libs, callback).value;
      MappedNext(m, m, exe, libs, 0, callback, next);
      LibrariesSucceed(m, next, exe, libs, 0, callback);
    }
  }

  // ---------------------------------------------------------------- memory outside slots and pages

  ghost predicate OutsideSlots(exe: WinRuntimeObject, libs: seq<WinRuntimeObject>, x: int) {
    forall i :: 0 <= i <= |libs| ==> ImageOk(Image(exe, libs, i), libs) && NotInSlot(Image(exe, libs, i), x)
  }

  lemma OneFrame(
    m: Memory, exe: WinRuntimeObject, libs: seq<WinRuntimeObject>, k: nat, callback: Word, m1: Memory, x: int)
    requires k <= |libs| && OutsideSlots(exe, libs, x)
    requires InitImage(m, Image(exe, libs, k), libs, callback) == Some(m1) && x in m
    ensures x in m1 && m1[x] == m[x]
  {
    hide InitImage, ImageOk;
    var o := Image(exe, libs, k);
    assert ImageOk(o, libs) && NotInSlot(o, x);
    ImageKeeps(m, o, libs, callback, m1, x, [m[x]]);
  }

  lemma {:induction false} LibrariesFrame(
    m: Memory, exe: WinRuntimeObject, libs: seq<WinRuntimeObject>, k: nat, callback: Word, m1: Memory, x: int)
    requires k <= |libs| && OutsideSlots(exe, libs, x)
    requires InitFrom(m, libs, k, callback) == Some(m1) && x in m
    ensures x in m1 && m1[x] == m[x]
    decreases |libs| - k
  {
    if k < |libs| {
      var next := InitImage(m, libs[k], libs, callback).value;
      OneFrame(m, exe, libs, k + 1, callback, next, x);
      LibrariesFrame(next, exe, libs, k + 1, callback, m1, x);
    }
  }

  predicate NotInSlot(o: WinRuntimeObject, x: int) {
    forall i | 0 <= i < |o.pe.iat| :: Apart(o.pe.imageBase + o.pe.iat[i].key, 8, x, 1)
  }

  /** A mapped byte outside every import slot is never changed. */
  lemma InitFrame(m: Memory, exe: WinRuntimeObject, libs: seq<WinRuntimeObject>, callback: Word, m1: Memory, x: int)
    requires WellPlaced(m, exe, libs) && InitAll(m, exe, libs, callback) == Some(m1) && x in m
    requires forall i :: 0 <= i <= |libs| ==> NotInSlot(Image(exe, libs, i), x)
    ensures x in m1 && m1[x] == m[x]
  {
    var next := InitImage(m, exe, libs, callback).value;
    assert Image(exe, libs, 0) == exe && OutsideSlots(exe, libs, x);
    OneFrame(m, exe, libs, 0, callback, next, x);
    LibrariesFrame(next, exe, libs, 0, callback, m1, x);
  }

  // ---------------------------------------------------------------- the callback undoes the layout

  // Where `Load` puts the trampoline pages.
  predicate Placement(exe: WinRuntimeObject, libs: seq<WinRuntimeObject>, base: Word) {
    && exe.iatSectionBase == (if exe.pe.iat == [] then 0 else base + exe.pe.importSectionBase)
    && (forall i | 0 <= i < |libs| && libs[i].pe.iat == [] :: libs[i].iatSectionBase == 0)
    && InOrder(libs, exe.iatSectionBase + PAGE_SIZE, 0x1000 * ADDRESS_LIMIT)
  }

  /** Page-aligned import sections are all it takes for the placement to hold. */
  lemma LoadPlaces(
    exe: WinRuntimeObject, files: map<string, PeData>, libs: seq<WinRuntimeObject>, base: Word)
    requires base + UINT32_LIMIT + PAGE_SIZE < ADDRESS_LIMIT && base % PAGE_SIZE == 0 && 0 < base
    requires |exe.pe.importDir| <= MAX_IMPORT_DIRECTORY
    requires exe.iatSectionBase == ExeSectionBase(exe.pe, base)
    requires LoadedDlls(exe.pe.importDir, files, exe.iatSectionBase + PAGE_SIZE) == Some(libs)
    requires ImportsAligned(exe.pe) && SectionsAligned(libs)
    ensures Placement(exe, libs, base)
    ensures PageOk(exe) && forall i :: 0 <= i < |libs| ==> PageOk(libs[i])
  {
    hide LoadedDlls, Cursor, CursorAfter, InOrder, SectionsAligned;
    var start := exe.iatSectionBase + PAGE_SIZE;
    PagesInOrder(exe.pe.importDir, files, start, libs);
    LoadedLength(exe.pe.importDir, files, start, libs);
    CursorBound(start, libs);
    InOrderWider(libs, start, Cursor(start, libs), 0x1000 * ADDRESS_LIMIT);
    forall i | 0 <= i < |libs|
      ensures PageOk(libs[i]) && (libs[i].pe.iat == [] ==> libs[i].iatSectionBase == 0)
    {
      LoadedFields(exe.pe.importDir, files, start, libs, i);
      if libs[i].pe.iat != [] {
        InOrderAt(libs, start, Cursor(start, libs), i);
      }
    }
  }

  lemma InOrderWider(libs: seq<WinRuntimeObject>, low: int, high: int, wider: int)
    requires InOrder(libs, low, high) && high <= wider
    ensures InOrder(libs, low, wider)
  {
  }

  lemma InOrderAt(libs: seq<WinRuntimeObject>, low: int, high: int, i: nat)
    requires InOrder(libs, low, high) && i < |libs| && libs[i].pe.iat != []
    ensures libs[i].iatSectionBase % PAGE_SIZE == 0
    ensures low <= libs[i].iatSectionBase && libs[i].iatSectionBase + PAGE_SIZE <= high
  {
  }

  lemma {:induction false} LibAtOwnPage(libs: seq<WinRuntimeObject>, k: nat, low: nat, high: int)
    requires k < |libs| && libs[k].pe.iat != [] && 0 < low && InOrder(libs, low, high)
    requires forall i | 0 <= i < |libs| && libs[i].pe.iat == [] :: libs[i].iatSectionBase == 0
    ensures LibAtPage(libs, libs[k].iatSectionBase) == Some(libs[k])
  {
    if k > 0 {
      var rest := libs[1..];
      forall i | 0 <= i < |rest| ensures rest[i] == libs[i + 1] {}
      assert InOrder(rest, low, high);
      LibAtOwnPage(rest, k - 1, low, high);
      assert libs[0].iatSectionBase != libs[k].iatSectionBase by {
        if libs[0].pe.iat == [] { assert libs[0].iatSectionBase == 0; }
      }
    }
  }

  /** From the return address of a trampoline the callback recovers the image and the entry's value. */
  lemma CallbackInverts(
    exe: WinRuntimeObject, libs: seq<WinRuntimeObject>, ntdll: seq<RuntimeSymbol>, base: Word, k: nat, i: nat)
    requires k <= |libs| && ImageOk(Image(exe, libs, k), libs) && Placement(exe, libs, base)
    requires i < |Image(exe, libs, k).pe.iat| && IsFunction(Image(exe, libs, k).pe.iat[i], libs)
    ensures var o := Image(exe, libs, k);
      var end := TrampolineOf(o, o.pe.iat[i]) + TRAMPOLINE_SIZE;
      0 <= end < WORD_LIMIT && CallbackTarget(exe, libs, ntdll, base, end)
        == TargetIn(o, o.pe.iat[i].value, libs, ntdll)
  {
    hide CallbackTarget, TargetIn, InOrder;
    var o := Image(exe, libs, k);
    PageOfTrampoline(o, i, libs);
    if k > 0 {
      assert libs[k - 1] == o;
      InOrderAt(libs, exe.iatSectionBase + PAGE_SIZE, 0x1000 * ADDRESS_LIMIT, k - 1);
      LibAtOwnPage(libs, k - 1, exe.iatSectionBase + PAGE_SIZE, 0x1000 * ADDRESS_LIMIT);
      LibInverts(exe, libs, ntdll, base, o, TrampolineOf(o, o.pe.iat[i]));
    } else {
      ExeInverts(exe, libs, ntdll, base, TrampolineOf(o, o.pe.iat[i]));
    }
  }

  lemma ExeInverts(
    exe: WinRuntimeObject, libs: seq<WinRuntimeObject>, ntdll: seq<RuntimeSymbol>, base: Word, start: int)
    requires 0 <= start && start + TRAMPOLINE_SIZE < WORD_LIMIT
    requires start / PAGE_SIZE * PAGE_SIZE == exe.iatSectionBase && 0 <= start - base < WORD_LIMIT
    ensures CallbackTarget(exe, libs, ntdll, base, start + TRAMPOLINE_SIZE)
         == TargetIn(exe, start - base, libs, ntdll)
  {
    hide TargetIn;
    assert Wrap(start + TRAMPOLINE_SIZE - TRAMPOLINE_SIZE) == start;
    assert Wrap(start - base) == start - base;
  }

  /** How far above its own addresses the trampolines of an image lie. */
  function Distance(o: WinRuntimeObject): int {
    o.iatSectionBase - o.pe.importSectionBase
  }

  lemma DistanceIsCursor(
    exe: WinRuntimeObject, files: map<string, PeData>, libs: seq<WinRuntimeObject>, base: Word, k: nat)
    requires base + UINT32_LIMIT + PAGE_SIZE < ADDRESS_LIMIT && |exe.pe.importDir| <= MAX_IMPORT_DIRECTORY
    requires exe.iatSectionBase == ExeSectionBase(exe.pe, base)
    requires LoadedDlls(exe.pe.importDir, files, exe.iatSectionBase + PAGE_SIZE) == Some(libs)
    requires k < |libs| && libs[k].pe.iat != []
    ensures Distance(libs[k]) == Cursor(exe.iatSectionBase + PAGE_SIZE, libs[..k]) >= exe.iatSectionBase + PAGE_SIZE
  {
    var start := exe.iatSectionBase + PAGE_SIZE;
    LoadedLength(exe.pe.importDir, files, start, libs);
    LoadedFields(exe.pe.importDir, files, start, libs, k);
    CursorBound(start, libs[..k]);
  }

  /** When the executable has import slots, none of the subtractions of the callback wraps around. */
  lemma NoUnderflow(
    exe: WinRuntimeObject, files: map<string, PeData>, libs: seq<WinRuntimeObject>, base: Word, k: nat, i: nat)
    requires base + UINT32_LIMIT + PAGE_SIZE < ADDRESS_LIMIT && |exe.pe.importDir| <= MAX_IMPORT_DIRECTORY
    requires exe.iatSectionBase == ExeSectionBase(exe.pe, base)
    requires LoadedDlls(exe.pe.importDir, files, exe.iatSectionBase + PAGE_SIZE) == Some(libs)
    requires k <= |libs| && ImageOk(Image(exe, libs, k), libs) && i < |Image(exe, libs, k).pe.iat|
    requires IsFunction(Image(exe, libs, k).pe.iat[i], libs) && exe.pe.iat != []
    ensures var o := Image(exe, libs, k);
      var start := TrampolineOf(o, o.pe.iat[i]);
      && base <= Distance(o) <= start
      && (start - base) - (Distance(o) - base) == o.pe.iat[i].value
  {
    if k > 0 {
      DistanceIsCursor(exe, files, libs, base, k - 1);
    }
  }

  lemma {:induction false} CursorStays(start: int, libs: seq<WinRuntimeObject>)
    requires forall i :: 0 <= i < |libs| ==> libs[i].pe.iat == []
    ensures Cursor(start, libs) == start
  {
    if libs != [] {
      CursorStays(start, libs[..|libs| - 1]);
    }
  }

  /** When it has none, the pages of the libraries start at address PAGE_SIZE, far below the reserved region:
      for the first library with import slots the callback's difference is negative and wraps around, which the
      second subtraction undoes. */
  lemma UnderflowWithoutSlots(
    exe: WinRuntimeObject, files: map<string, PeData>, libs: seq<WinRuntimeObject>, base: Word, k: nat)
    requires base + UINT32_LIMIT + PAGE_SIZE < ADDRESS_LIMIT && |exe.pe.importDir| <= MAX_IMPORT_DIRECTORY
    requires exe.iatSectionBase == ExeSectionBase(exe.pe, base) && exe.pe.iat == []
    requires LoadedDlls(exe.pe.importDir, files, exe.iatSectionBase + PAGE_SIZE) == Some(libs)
    requires k < |libs| && libs[k].pe.iat != [] && forall j :: 0 <= j < k ==> libs[j].pe.iat == []
    ensures Distance(libs[k]) == PAGE_SIZE
    ensures Distance(libs[k]) - base < 0 <==> base > PAGE_SIZE
  {
    DistanceIsCursor(exe, files, libs, base, k);
    CursorStays(exe.iatSectionBase + PAGE_SIZE, libs[..k]);
  }

  lemma LibInverts(
    exe: WinRuntimeObject, libs: seq<WinRuntimeObject>, ntdll: seq<RuntimeSymbol>, base: Word,
    o: WinRuntimeObject, start: int)
    requires 0 <= start && start + TRAMPOLINE_SIZE < WORD_LIMIT
    requires start / PAGE_SIZE * PAGE_SIZE == o.iatSectionBase != exe.iatSectionBase
    requires LibAtPage(libs, o.iatSectionBase) == Some(o)
    requires 0 <= start - o.iatSectionBase + o.pe.importSectionBase < WORD_LIMIT
    ensures CallbackTarget(exe, libs, ntdll, base, start + TRAMPOLINE_SIZE)
         == TargetIn(o, start - o.iatSectionBase + o.pe.importSectionBase, libs, ntdll)
  {
    hide TargetIn, LibAtPage;
    assert Wrap(start + TRAMPOLINE_SIZE - TRAMPOLINE_SIZE) == start;
    RawMinusOffset(start, o.iatSectionBase, o.pe.importSectionBase, base);
  }

  lemma PageOfTrampoline(o: WinRuntimeObject, i: nat, libs: seq<WinRuntimeObject>)
    requires ImageOk(o, libs) && i < |o.pe.iat| && IsFunction(o.pe.iat[i], libs)
    ensures var start := TrampolineOf(o, o.pe.iat[i]);
      && 0 <= start && start + TRAMPOLINE_SIZE < WORD_LIMIT
      && start / PAGE_SIZE * PAGE_SIZE == o.iatSectionBase
  {
    assert InFirstPage(o.pe, o.pe.iat[i]);
  }

  lemma RawMinusOffset(start: int, section: int, vba: int, base: int)
    requires 0 <= start - section + vba < WORD_LIMIT
    ensures Wrap(Wrap(start - base) - Wrap(section - vba - base)) == start - section + vba
  {
    var raw: int := Wrap(start - base);
    WrapCancels(raw, section - vba - base);
    WrapCancels(start - base, section - vba - base);
  }

  /** Distinct slots of distinct images have distinct trampolines. */
  lemma TrampolinesDistinct(
    exe: WinRuntimeObject, libs: seq<WinRuntimeObject>, base: Word, k: nat, i: nat, k': nat, i': nat)
    requires k <= |libs| && k' <= |libs| && Placement(exe, libs, base)
    requires ImageOk(Image(exe, libs, k), libs) && ImageOk(Image(exe, libs, k'), libs)
    requires i < |Image(exe, libs, k).pe.iat| && IsFunction(Image(exe, libs, k).pe.iat[i], libs)
    requires i' < |Image(exe, libs, k').pe.iat| && IsFunction(Image(exe, libs, k').pe.iat[i'], libs)
    requires (k, i) != (k', i')
    ensures Apart(
      TrampolineOf(Image(exe, libs, k), Image(exe, libs, k).pe.iat[i]), TRAMPOLINE_SIZE,
      TrampolineOf(Image(exe, libs, k'), Image(exe, libs, k').pe.iat[i']), TRAMPOLINE_SIZE)
  {
    var o, o' := Image(exe, libs, k), Image(exe, libs, k');
    assert InFirstPage(o.pe, o.pe.iat[i]) && InFirstPage(o'.pe, o'.pe.iat[i']);
    if k == k' {
      assert Apart(o.pe.iat[i].value, TRAMPOLINE_SIZE, o'.pe.iat[i'].value, TRAMPOLINE_SIZE);
    } else if k > 0 && k' > 0 {
      assert libs[k - 1] == o && libs[k' - 1] == o';
    } else if k > 0 {
      assert libs[k - 1] == o;
    } else {
      assert libs[k' - 1] == o';
    }
  }

  // ---------------------------------------------------------------- from the value to the name

  predicate AnnotatedBy(pe: PeData) {
    forall k | 0 <= k < |pe.iat| && pe.iat[k].value != 0 ::
      && pe.iat[k].libName.Some? && pe.iat[k].importName.Some?
      && FirstImport(pe.importDir, pe.iat[k].value) == Some((pe.iat[k].libName.value, pe.iat[k].importName.value))
  }

  lemma {:induction false} KeyFound(iat: seq<ImportAddressEntry>, k: nat)
    requires k < |iat| && forall i :: 0 <= i < |iat| ==> iat[i].key > 0
    ensures KeyOf(iat, iat[k].value) > 0
  {
    if iat[0].value != iat[k].value {
      forall i | 0 <= i < |iat| - 1 ensures iat[1..][i] == iat[i + 1] {}
      KeyFound(iat[1..], k - 1);
    }
  }

  lemma {:induction false} LastNameIs(d: ImportDirectoryEntry, value: Word, n: nat, j: nat)
    requires n <= |d.imports| && j < n && d.imports[j].address == value
    requires forall j' :: 0 <= j' < n && d.imports[j'].address == value ==> j' == j
    ensures LastNameIn(d, value, n) == Some(d.imports[j].name)
  {
    if j < n - 1 {
      LastNameIs(d, value, n - 1, j);
    }
  }

  lemma {:induction false} LastNameNone(d: ImportDirectoryEntry, value: Word, n: nat)
    requires n <= |d.imports|
    requires forall j :: 0 <= j < n ==> d.imports[j].address != value
    ensures LastNameIn(d, value, n) == None
  {
    if n > 0 {
      LastNameNone(d, value, n - 1);
    }
  }

  /** With distinct addresses the last match, which the callback takes, is the only one. */
  lemma {:induction false} LastImportIs(dir: seq<ImportDirectoryEntry>, value: Word, i: nat, j: nat)
    requires ImportAt(dir, i, j, value) && DistinctAddresses(dir)
    ensures LastImport(dir, value) == Some((dir[i].libName, dir[i].imports[j].name))
  {
    var n := |dir| - 1;
    var last := dir[n];
    if i == n {
      forall j' | 0 <= j' < |last.imports| && last.imports[j'].address == value ensures j' == j {
        assert ImportAt(dir, n, j', value);
      }
      LastNameIs(last, value, |last.imports|, j);
    } else {
      forall j' | 0 <= j' < |last.imports| ensures last.imports[j'].address != value {
        assert ImportAt(dir, n, j', value) ==> n == i;
      }
      LastNameNone(last, value, |last.imports|);
      assert DistinctAddresses(dir[..n]) by {
        forall a: nat, b: nat, c: nat, d: nat, v | ImportAt(dir[..n], a, b, v) && ImportAt(dir[..n], c, d, v)
          ensures a == c && b == d
        {
          assert ImportAt(dir, a, b, v) && ImportAt(dir, c, d, v);
        }
      }
      LastImportIs(dir[..n], value, i, j);
    }
  }

  /** The forward map of the import directory and the backward map of the callback agree. */
  lemma TargetOfEntry(o: WinRuntimeObject, i: nat, libs: seq<WinRuntimeObject>, ntdll: seq<RuntimeSymbol>)
    requires PeOk(o.pe, libs) && AnnotatedBy(o.pe) && DistinctAddresses(o.pe.importDir)
    requires i < |o.pe.iat| && o.pe.iat[i].value != 0
    ensures var e := o.pe.iat[i];
      e.libName.Some? && e.importName.Some? &&
      TargetIn(o, e.value, libs, ntdll) == NamedTarget(libs, ntdll, e.libName.value, e.importName.value)
  {
    var value := o.pe.iat[i].value;
    KeyFound(o.pe.iat, i);
    var a, b := FirstImportFound(o.pe.importDir, value);
    LastImportIs(o.pe.importDir, value, a, b);
  }

  // ---------------------------------------------------------------- from the name to the address

  predicate Records(lib: WinRuntimeObject, name: string) {
    ExportIn(lib.exports, name).Some?
  }

  lemma {:induction false} LastRecordedIs(libs: seq<WinRuntimeObject>, name: string, i: nat)
    requires i < |libs| && Records(libs[i], name)
    requires forall j :: i < j < |libs| ==> !Records(libs[j], name)
    ensures Some(LastRecorded(libs, name)) == ExportIn(libs[i].exports, name)
  {
    if i < |libs| - 1 {
      assert !Records(libs[|libs| - 1], name);
      LastRecordedIs(libs[..|libs| - 1], name, i);
    }
  }

  lemma {:induction false} LastRecorder(libs: seq<WinRuntimeObject>, name: string, i: nat) returns (k: nat)
    requires i < |libs| && Records(libs[i], name)
    ensures i <= k < |libs| && Records(libs[k], name)
    ensures forall j :: k < j < |libs| ==> !Records(libs[j], name)
  {
    var n := |libs| - 1;
    if Records(libs[n], name) {
      k := n;
    } else {
      k := LastRecorder(libs[..n], name, i);
      forall j | k < j < |libs| ensures !Records(libs[j], name) {
        if j < n { assert libs[j] == libs[..n][j]; }
      }
    }
  }

  predicate Imports(d: ImportDirectoryEntry, name: string) {
    exists k | 0 <= k < |d.imports| :: d.imports[k].name == name
  }

  lemma {:induction false} ExportNamedHasName(exports: seq<ExportEntry>, name: string)
    requires ExportNamed(exports, name).Some?
    ensures ExportNamed(exports, name).value.name == name && ExportNamed(exports, name).value in exports
  {
    if exports[|exports| - 1].name != name {
      ExportNamedHasName(exports[..|exports| - 1], name);
    }
  }

  /** The export found is the last one of its name. */
  lemma {:induction false} ExportNamedIsLast(exports: seq<ExportEntry>, name: string, k: nat)
    requires k < |exports| && exports[k].name == name
    requires forall j :: k < j < |exports| ==> exports[j].name != name
    ensures ExportNamed(exports, name) == Some(exports[k])
  {
    if k < |exports| - 1 {
      assert exports[|exports| - 1].name != name;
      ExportNamedIsLast(exports[..|exports| - 1], name, k);
    }
  }

  lemma {:induction false} ExportInAppend(xs: seq<WinRuntimeExport>, x: WinRuntimeExport, name: string)
    ensures ExportIn(xs + [x], name) ==
      if ExportIn(xs, name).Some? then ExportIn(xs, name) else if x.name == name then Some(x.address) else None
  {
    if xs != [] {
      assert (xs + [x])[1..] == xs[1..] + [x];
      ExportInAppend(xs[1..], x, name);
    }
  }

  /** A library records the names the executable imports from it, and no others. */
  lemma {:induction false} RecordedNames(imports: seq<ImportEntry>, pe: PeData, exports: seq<WinRuntimeExport>,
                                         name: string)
    requires Recorded(imports, pe) == Some(exports)
    ensures ExportIn(exports, name) ==
      if exists k :: 0 <= k < |imports| && imports[k].name == name && ExportNamed(pe.exports, name).Some?
      then Some(Wrap(pe.imageBase + ExportNamed(pe.exports, name).value.address)) else None
  {
    if imports != [] {
      var n := |imports| - 1;
      var init := Recorded(imports[..n], pe).value;
      RecordedNames(imports[..n], pe, init, name);
      ExportNamedHasName(pe.exports, imports[n].name);
      var e := ExportNamed(pe.exports, imports[n].name).value;
      ExportInAppend(init, WinRuntimeExport(Wrap(pe.imageBase + e.address), e.name), name);
      assert forall k :: 0 <= k < n ==> imports[..n][k] == imports[k];
    }
  }

  lemma {:induction false} NoneRecorded(libs: seq<WinRuntimeObject>, name: string)
    requires forall j :: 0 <= j < |libs| ==> !Records(libs[j], name)
    ensures LastRecorded(libs, name) == 0
  {
    if libs != [] {
      assert !Records(libs[|libs| - 1], name);
      NoneRecorded(libs[..|libs| - 1], name);
    }
  }

  predicate ExportsInside(pe: PeData) {
    forall e | e in pe.exports :: InSection(pe, e.address, 1)
  }

  ghost predicate LibrariesOk(libs: seq<WinRuntimeObject>) {
    && (forall i :: 0 <= i < |libs| ==> ImageInSpace(libs[i].pe) && ExportsInside(libs[i].pe))
    && (forall i, j :: 0 <= i < j < |libs| ==> ImagesApart(libs[i], libs[j]))
  }

  lemma RecordsAddress(
    dir: seq<ImportDirectoryEntry>, files: map<string, PeData>, start: nat, libs: seq<WinRuntimeObject>,
    j: nat, name: string)
    requires start < ADDRESS_LIMIT && |dir| <= MAX_IMPORT_DIRECTORY && LibrariesOk(libs)
    requires LoadedDlls(dir, files, start) == Some(libs) && j < |libs|
    ensures |libs| == |dir| && (Records(libs[j], name) <==> Imports(dir[j], name))
    ensures Records(libs[j], name) ==>
      && ExportNamed(libs[j].pe.exports, name).Some?
      && InSection(libs[j].pe, ExportNamed(libs[j].pe.exports, name).value.address, 1)
      && ExportIn(libs[j].exports, name)
         == Some(libs[j].pe.imageBase + ExportNamed(libs[j].pe.exports, name).value.address)
  {
    hide LoadedDlls, ExportNamed, Recorded, PlacedAt, Cursor;
    LoadedLength(dir, files, start, libs);
    LoadedFields(dir, files, start, libs, j);
    RecordedNames(dir[j].imports, libs[j].pe, libs[j].exports, name);
    if Imports(dir[j], name) && ExportNamed(libs[j].pe.exports, name) == None {
      var k :| 0 <= k < |dir[j].imports| && dir[j].imports[k].name == name;
      NotRecorded(dir[j].imports, libs[j].pe, k);
      assert false;
    }
    if Records(libs[j], name) {
      ExportNamedHasName(libs[j].pe.exports, name);
      assert ExportsInside(libs[j].pe);
      PlaceInSpace(libs[j].pe, ExportNamed(libs[j].pe.exports, name).value.address, 1);
    }
  }

  /** Exactly when the callback finds the export of the library that was meant: the executable itself
      imports the name from that library, and from no library after it. The library name of the
      calling image's import plays no part. */
  lemma ReachesNamedExport(
    dir: seq<ImportDirectoryEntry>, files: map<string, PeData>, start: nat, libs: seq<WinRuntimeObject>,
    i: nat, name: string)
    requires start < ADDRESS_LIMIT && |dir| <= MAX_IMPORT_DIRECTORY && LibrariesOk(libs)
    requires LoadedDlls(dir, files, start) == Some(libs)
    requires i < |libs| && ExportNamed(libs[i].pe.exports, name).Some?
    ensures |libs| == |dir|
    ensures LastRecorded(libs, name) == libs[i].pe.imageBase + ExportNamed(libs[i].pe.exports, name).value.address
            <==> Imports(dir[i], name) && forall j :: i < j < |libs| ==> !Imports(dir[j], name)
  {
    forall j | 0 <= j < |libs| ensures |libs| == |dir| && (Records(libs[j], name) <==> Imports(dir[j], name)) {
      RecordsAddress(dir, files, start, libs, j, name);
    }
    RecordsAddress(dir, files, start, libs, i, name);
    ExportNamedHasName(libs[i].pe.exports, name);
    assert ExportsInside(libs[i].pe);
    if j :| 0 <= j < |libs| && Records(libs[j], name) {
      var k := LastRecorder(libs, name, j);
      LastRecordedIs(libs, name, k);
      RecordsAddress(dir, files, start, libs, k, name);
      if k != i {
        var a, b := if k < i then k else i, if k < i then i else k;
        PlacesApart(libs[a], ExportNamed(libs[a].pe.exports, name).value.address,
                    libs[b], ExportNamed(libs[b].pe.exports, name).value.address, 1);
      }
    } else {
      NoneRecorded(libs, name);
    }
  }

  /** So a dispatched call arrives at image base plus export address of a library exactly under that
      condition, whatever library the calling image names. */
  lemma TargetIsExport(
    dir: seq<ImportDirectoryEntry>, files: map<string, PeData>, start: nat, libs: seq<WinRuntimeObject>,
    ntdll: seq<RuntimeSymbol>, i: nat, libName: string, name: string)
    requires start < ADDRESS_LIMIT && |dir| <= MAX_IMPORT_DIRECTORY && LibrariesOk(libs)
    requires LoadedDlls(dir, files, start) == Some(libs) && libName != NTDLL
    requires i < |libs| && ExportNamed(libs[i].pe.exports, name).Some?
    ensures |libs| == |dir|
    ensures var address := libs[i].pe.imageBase + ExportNamed(libs[i].pe.exports, name).value.address;
      && address < WORD_LIMIT
      && (NamedTarget(libs, ntdll, libName, name) == Some(Target(false, address))
          <==> Imports(dir[i], name) && forall j :: i < j < |libs| ==> !Imports(dir[j], name))
  {
    hide LoadedDlls, ExportNamed, LastRecorded;
    ReachesNamedExport(dir, files, start, libs, i, name);
    ExportNamedHasName(libs[i].pe.exports, name);
    assert ExportsInside(libs[i].pe);
    PlaceInSpace(libs[i].pe, ExportNamed(libs[i].pe.exports, name).value.address, 1);
  }
}
