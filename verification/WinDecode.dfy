/** From the bytes of an import section to the images the dispatch results speak of. */
module WinDecode {
  import opened AddressSpace
  import opened PeImports
  import opened PeSections
  import SectionBytes
  import opened WinDispatch
  import opened WinIat
  import opened WinImages
  import opened WinInstall
  import opened Words

  const SHORTEST_NAME := 4

  /** The bytes of a hint/name entry: hint, name and null, padded to an even length. */
  function HintNameSize(e: ImportEntry): nat {
    var n := NAME_ENTRY_OFFSET + |e.name| + 1;
    n + n % 2
  }

  /** An import that gets a trampoline: no library has a variable of its name. */
  predicate ImportsFunction(dir: seq<ImportDirectoryEntry>, i: nat, j: nat, libs: seq<WinRuntimeObject>)
    requires i < |dir| && j < |dir[i].imports|
  {
    VariableOf(ImportAddressEntry(0, 0, Some(dir[i].libName), Some(dir[i].imports[j].name)), libs) == None
  }

  /** The trampolines of any two function imports keep apart. */
  ghost predicate FunctionsSpaced(dir: seq<ImportDirectoryEntry>, libs: seq<WinRuntimeObject>) {
    forall i: nat, j: nat, i': nat, j': nat, v: Word, v': Word ::
      ImportAt(dir, i, j, v) && ImportAt(dir, i', j', v') && (i, j) != (i', j')
      && ImportsFunction(dir, i, j, libs) && ImportsFunction(dir, i', j', libs) ==>
        Apart(v, TRAMPOLINE_SIZE, v', TRAMPOLINE_SIZE)
  }

  /** They lie in the first page of the import section. */
  ghost predicate FunctionsInPage(dir: seq<ImportDirectoryEntry>, libs: seq<WinRuntimeObject>, base: int) {
    forall i: nat, j: nat, v: Word ::
      ImportAt(dir, i, j, v) && ImportsFunction(dir, i, j, libs) ==>
        base <= v && v + TRAMPOLINE_SIZE <= base + PAGE_SIZE
  }

  /** No two imports share bytes of their hint/name entries. */
  ghost predicate HintNamesApart(dir: seq<ImportDirectoryEntry>) {
    forall i: nat, j: nat, i': nat, j': nat, v: Word, v': Word ::
      ImportAt(dir, i, j, v) && ImportAt(dir, i', j', v') && (i, j) != (i', j') ==>
        Apart(v, HintNameSize(dir[i].imports[j]), v', HintNameSize(dir[i'].imports[j']))
  }

  ghost predicate FunctionNamesLong(dir: seq<ImportDirectoryEntry>, libs: seq<WinRuntimeObject>) {
    forall i: nat, j: nat, v: Word ::
      ImportAt(dir, i, j, v) && ImportsFunction(dir, i, j, libs) ==> |dir[i].imports[j].name| >= SHORTEST_NAME
  }

  /** A hint/name entry holds a trampoline exactly when the name has four characters or more; packed behind
      a shorter name the next entry's trampoline damages this one. */
  lemma HoldsTrampoline(e: ImportEntry)
    ensures TRAMPOLINE_SIZE <= HintNameSize(e) <==> |e.name| >= SHORTEST_NAME
    ensures |e.name| < SHORTEST_NAME ==> HintNameSize(e) in {4, 6}
  {
  }

  lemma DirectoryNonzero(buf: seq<Byte>, o: int, base: Rva, raws: seq<RawDll>, dir: seq<ImportDirectoryEntry>)
    requires DirectoryAt(buf, o, base, raws, dir) && Unbound(raws, dir)
    ensures AddressesNonzero(dir)
  {
    hide SectionBytes.BytesAt;
    forall i: nat, j: nat | i < |dir| && j < |dir[i].imports| ensures dir[i].imports[j].address > 0 {
      assert DllAt(buf, base, raws[i], dir[i]);
      assert HintNameAt(buf, base, raws[i].hints[j], dir[i].imports[j].name);
    }
  }

  /** Hint/name entries apart leave room for the trampolines when the functions have names of four characters
      or more; imports then have distinct addresses, too. */
  lemma LongNamesFit(dir: seq<ImportDirectoryEntry>, libs: seq<WinRuntimeObject>)
    requires HintNamesApart(dir)
    ensures FunctionNamesLong(dir, libs) ==> FunctionsSpaced(dir, libs)
    ensures DistinctAddresses(dir)
  {
    if FunctionNamesLong(dir, libs) {
      forall i: nat, j: nat, i': nat, j': nat, v: Word, v': Word
        | ImportAt(dir, i, j, v) && ImportAt(dir, i', j', v') && (i, j) != (i', j')
          && ImportsFunction(dir, i, j, libs) && ImportsFunction(dir, i', j', libs)
        ensures Apart(v, TRAMPOLINE_SIZE, v', TRAMPOLINE_SIZE)
      {
        HoldsTrampoline(dir[i].imports[j]);
        HoldsTrampoline(dir[i'].imports[j']);
      }
    }
  }

  /** A function with a shorter name has no room when the next hint/name entry, of a function as well, follows
      at once. */
  lemma ShortNameCrowded(dir: seq<ImportDirectoryEntry>, libs: seq<WinRuntimeObject>, i: nat, j: nat, i': nat, j': nat)
    requires i < |dir| && j < |dir[i].imports| && i' < |dir| && j' < |dir[i'].imports| && (i, j) != (i', j')
    requires ImportsFunction(dir, i, j, libs) && ImportsFunction(dir, i', j', libs)
    requires dir[i'].imports[j'].address == dir[i].imports[j].address + HintNameSize(dir[i].imports[j])
    requires |dir[i].imports[j].name| < SHORTEST_NAME
    ensures !FunctionsSpaced(dir, libs)
  {
    var e, f := dir[i].imports[j], dir[i'].imports[j'];
    HoldsTrampoline(e);
    assert ImportAt(dir, i, j, e.address) && ImportAt(dir, i', j', f.address);
    assert !Apart(e.address, TRAMPOLINE_SIZE, f.address, TRAMPOLINE_SIZE);
  }

  /** `pow` is such a name: its entry takes six bytes. */
  lemma PowIsShort()
    ensures HintNameSize(ImportEntry("pow", 0x2000)) == 6 < TRAMPOLINE_SIZE
  {
  }

  // The table that is read for an image with this directory.
  ghost predicate TableOf(pe: PeData, rva: nat) {
    && (pe.importDir != [] ==> |pe.iat| == |Flat(pe.importDir)| - 1)
    && |pe.iat| <= |Flat(pe.importDir)|
    && forall k :: 0 <= k < |pe.iat| ==> pe.iat[k] == EntryFor(Flat(pe.importDir)[k], Wrap(rva + k * 8))
  }

  lemma TableEntry(pe: PeData, rva: nat, k: nat)
    requires TableOf(pe, rva) && k < |pe.iat|
    ensures pe.iat[k].value != 0 ==>
      var (i, j) := PlaceOf(pe.importDir, k);
      && ImportAt(pe.importDir, i, j, pe.iat[k].value)
      && pe.iat[k].libName == Some(pe.importDir[i].libName)
      && pe.iat[k].importName == Some(pe.importDir[i].imports[j].name)
    ensures pe.iat[k].key == Wrap(rva + k * 8)
  {
    if pe.iat[k].value != 0 {
      FlatAt(pe.importDir, k);
    }
  }

  /** A decoded table carries the names the import directory gives. */
  lemma DecodedAnnotated(pe: PeData, rva: nat)
    requires TableOf(pe, rva) && DistinctAddresses(pe.importDir) && AddressesNonzero(pe.importDir)
    ensures AnnotatedBy(pe)
  {
    forall k | 0 <= k < |pe.iat| && pe.iat[k].value != 0
      ensures pe.iat[k].libName.Some? && pe.iat[k].importName.Some?
      ensures FirstImport(pe.importDir, pe.iat[k].value)
           == Some((pe.iat[k].libName.value, pe.iat[k].importName.value))
    {
      AnnotatesOwn(pe.importDir, k, pe.iat[k].key);
      TableEntry(pe, rva, k);
    }
  }

  ghost predicate FunctionsApart(pe: PeData, libs: seq<WinRuntimeObject>) {
    && (forall k | 0 <= k < |pe.iat| && IsFunction(pe.iat[k], libs) :: InFirstPage(pe, pe.iat[k]))
    && (forall k, k' | 0 <= k < k' < |pe.iat| && IsFunction(pe.iat[k], libs) && IsFunction(pe.iat[k'], libs) ::
          Apart(pe.iat[k].value, TRAMPOLINE_SIZE, pe.iat[k'].value, TRAMPOLINE_SIZE))
  }

  lemma FunctionEntry(pe: PeData, rva: nat, k: nat, libs: seq<WinRuntimeObject>)
    requires TableOf(pe, rva) && k < |pe.iat| && IsFunction(pe.iat[k], libs)
    ensures var (i, j) := PlaceOf(pe.importDir, k);
      ImportAt(pe.importDir, i, j, pe.iat[k].value) && ImportsFunction(pe.importDir, i, j, libs)
  {
    TableEntry(pe, rva, k);
  }

  /** Function imports spaced in the directory have trampolines apart in the decoded table. */
  lemma DecodedApart(pe: PeData, rva: nat, libs: seq<WinRuntimeObject>)
    requires TableOf(pe, rva) && FunctionsSpaced(pe.importDir, libs)
    requires FunctionsInPage(pe.importDir, libs, pe.importSectionBase)
    ensures FunctionsApart(pe, libs)
  {
    hide IsFunction, ImportsFunction, TableOf, PlaceOf;
    forall k | 0 <= k < |pe.iat| && IsFunction(pe.iat[k], libs) ensures InFirstPage(pe, pe.iat[k]) {
      FunctionEntry(pe, rva, k, libs);
      var (i, j) := PlaceOf(pe.importDir, k);
      assert ImportAt(pe.importDir, i, j, pe.iat[k].value);
    }
    forall k, k' | 0 <= k < k' < |pe.iat| && IsFunction(pe.iat[k], libs) && IsFunction(pe.iat[k'], libs)
      ensures Apart(pe.iat[k].value, TRAMPOLINE_SIZE, pe.iat[k'].value, TRAMPOLINE_SIZE)
    {
      FunctionEntry(pe, rva, k, libs);
      FunctionEntry(pe, rva, k', libs);
      PlacesDiffer(pe.importDir, k, k');
    }
  }

  /** The two halves meet: an import section laid out by the format, with function imports seven bytes apart in
      the first page of the section, decodes to an image as the dispatch results require it. */
  lemma DecodedImageReady(
    buf: seq<Byte>, o: int, rva: Rva, size: nat, raws: seq<RawDll>, pe: PeData, libs: seq<WinRuntimeObject>)
    requires DirectoryAt(buf, o, pe.importSectionBase, raws, pe.importDir) && Unbound(raws, pe.importDir)
    requires DistinctAddresses(pe.importDir)
    requires FunctionsSpaced(pe.importDir, libs) && FunctionsInPage(pe.importDir, libs, pe.importSectionBase)
    requires size == 8 * |Flat(pe.importDir)| && 0 < rva && InSection(pe, rva, size) && ImageInSpace(pe)
    requires SectionBytes.BytesAt(buf, rva - pe.importSectionBase, IatBytes(pe.importDir))
    requires |pe.iat| == IatLength(size)
    requires forall k :: 0 <= k < |pe.iat| ==>
      pe.iat[k] == Annotated(Wrap(rva + k * 8), SectionBytes.WordAt(buf, rva - pe.importSectionBase + k * 8),
                             pe.importDir)
    ensures PeOk(pe, libs) && AnnotatedBy(pe) && DistinctAddresses(pe.importDir)
  {
    hide FunctionsSpaced, FunctionsInPage, DirectoryAt, InSection, PeOk;
    DirectoryNonzero(buf, o, pe.importSectionBase, raws, pe.importDir);
    IatIsFlat(buf, pe.importSectionBase, rva, size, pe.importDir, pe.iat);
    DecodedAnnotated(pe, rva);
    DecodedApart(pe, rva, libs);
    KeysInOrder(pe, rva, libs, size);
  }

  lemma KeysInOrder(pe: PeData, rva: Rva, libs: seq<WinRuntimeObject>, size: nat)
    requires TableOf(pe, rva) && FunctionsApart(pe, libs) && ImageInSpace(pe)
    requires 0 < rva && 8 * |pe.iat| <= size && InSection(pe, rva, size)
    ensures PeOk(pe, libs)
  {
    hide EntryFor, Flat, IsFunction;
    var s: nat :| s < |pe.sections| && SectionHolds(pe, s, rva, size);
    assert pe.sections[s] in pe.sections;
    forall k | 0 <= k < |pe.iat| ensures pe.iat[k].key == rva + k * 8 && InSection(pe, pe.iat[k].key, 8) {
      TableEntry(pe, rva, k);
      NoWrap(rva + k * 8);
      assert SectionHolds(pe, s, rva + k * 8, 8);
    }
  }

  lemma NoWrap(x: nat)
    requires x < WORD_LIMIT
    ensures Wrap(x) == x
  {
  }
}
