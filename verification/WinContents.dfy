/** What is in the sections of a loaded Windows program: the bytes of its files. */
module WinContents {
  import opened AddressSpace
  import opened MemoryRegions
  import opened PeSections
  import opened RegionMapping
  import opened SectionBytes
  import opened WinDispatch
  import opened WinIat
  import opened WinImages
  import opened WinInstall
  import opened WinLoader
  import opened WinProgram
  import opened Words

  // ---------------------------------------------------------------- the contents of one image

  /** The byte of section `k` at an address: that of the file, or zero in .bss. */
  function SectionByte(pe: PeData, k: nat, x: int): Byte
    requires k < |pe.sections|
  {
    if SectionNamed(pe.sections, ".bss") == Some(pe.sections[k]) then 0
    else FileByte(pe.file, pe.sections[k].fileOffset + (x - SectionStart(pe, k)))
  }

  ghost predicate SectionShown(m: Memory, pe: PeData, k: nat)
    requires k < |pe.sections|
  {
    forall x :: SectionStart(pe, k) <= x < SectionStart(pe, k) + pe.sections[k].virtualSize ==>
      x in m && m[x] == SectionByte(pe, k, x)
  }

  ghost predicate ImageShown(m: Memory, pe: PeData) {
    forall k: nat :: k < |pe.sections| ==> SectionShown(m, pe, k)
  }

  lemma MappedShown(m: Memory, pe: PeData, headers: seq<MemoryRegion>, m1: Memory)
    requires ImageMapped(m, pe, headers) == Some(m1) && ImageInSpace(pe) && HeadersOk(headers)
    ensures ImageShown(m1, pe)
  {
    hide ImageMapped, SectionNamed, Shows, SectionRegion;
    forall k: nat | k < |pe.sections| ensures SectionShown(m1, pe, k) {
      if SectionNamed(pe.sections, ".bss") == Some(pe.sections[k]) {
        BssShows(m, pe, headers, m1, k);
      } else {
        ImageShows(m, pe, headers, m1, k);
        RegionShown(m1, pe, k);
      }
    }
  }

  lemma RegionShown(m: Memory, pe: PeData, k: nat)
    requires k < |pe.sections| && ImageInSpace(pe) && SectionNamed(pe.sections, ".bss") != Some(pe.sections[k])
    requires Shows(m, SectionRegion(pe.sections[k], pe.imageBase), pe.file)
    ensures SectionShown(m, pe, k)
  {
    RegionOfSection(pe, [], k);
    PageUpNear(pe.sections[k].virtualSize);
    assert pe.sections[k] in pe.sections;
    SectionLength(pe.sections[k], pe.imageBase);
    FileOffsetKept(pe.sections[k], pe.imageBase);
    hide SectionRegion, SectionNamed, MappedLength, FileByte;
  }

  lemma ShownStays(m: Memory, m1: Memory, pe: PeData)
    requires ImageShown(m, pe) && Grows(m, m1)
    ensures ImageShown(m1, pe)
  {
    hide SectionByte;
    forall k: nat | k < |pe.sections| ensures SectionShown(m1, pe, k) {
      assert SectionShown(m, pe, k);
    }
  }

  // ---------------------------------------------------------------- the contents of all images

  lemma {:induction false} ImagesShown(m: Memory, libs: seq<WinRuntimeObject>, m1: Memory, i: nat)
    requires ImagesMapped(m, libs) == Some(m1) && forall j :: 0 <= j < |libs| ==> ImageInSpace(libs[j].pe)
    requires i < |libs|
    ensures ImageShown(m1, libs[i].pe)
  {
    hide ImageMapped, ImageInSpace, ImageShown, InMemory, FreeIn, Grows;
    var n := |libs| - 1;
    var mid := ImagesMapped(m, libs[..n]).value;
    if i == n {
      MappedShown(mid, libs[n].pe, [], m1);
    } else {
      ImagesShown(m, libs[..n], mid, i);
      ImageComesIn(mid, libs[n].pe, m1);
      ShownStays(mid, m1, libs[i].pe);
    }
  }

  lemma HeaderHolds(pe: PeData, headersSize: Dword)
    requires pe.imageBase + headersSize < WORD_LIMIT
    ensures HeadersOk([HeaderRegion(pe, headersSize)])
  {
  }

  /** The executable shows its file from its own mapping to the start of the initialisation. */
  lemma ExecutableShown(p: Program, start: Memory, headersSize: Dword, mapped: Memory)
    requires ExecutableIn(p, start, headersSize) && ImageInSpace(p.exe.pe)
    requires Grows(Reserved(p.before, p.base), mapped) && RangeFree(p.before, p.base, RESERVED_SIZE)
    ensures p.exe.pe.sections != [] ==> ImageShown(mapped, p.exe.pe)
  {
    hide ImageMapped, ImageShown, HeadersOk;
    var pe := p.exe.pe;
    if pe.sections != [] {
      assert pe.sections[0] in pe.sections;
      HeaderHolds(pe, headersSize);
      var own := ExeMapped(start, pe, headersSize).value;
      MappedShown(start, pe, [HeaderRegion(pe, headersSize)], own);
      ShownStays(own, p.before, pe);
      forall x | x in p.before ensures x in mapped && mapped[x] == p.before[x] {
        assert x in Reserved(p.before, p.base);
      }
      ShownStays(p.before, mapped, pe);
    }
  }

  /** A byte of one image is in no slot of another. */
  lemma NotInOtherSlot(o: WinRuntimeObject, k: nat, x: int, p: WinRuntimeObject, libs: seq<WinRuntimeObject>)
    requires k < |o.pe.sections| && ImagesApart(o, p) && PeOk(p.pe, libs)
    requires SectionStart(o.pe, k) <= x < SectionStart(o.pe, k) + o.pe.sections[k].virtualSize
    ensures NotInSlot(p, x)
  {
    forall i | 0 <= i < |p.pe.iat| ensures Apart(p.pe.imageBase + p.pe.iat[i].key, 8, x, 1) {
      assert InSection(p.pe, p.pe.iat[i].key, 8);
      var j: nat :| j < |p.pe.sections| && SectionHolds(p.pe, j, p.pe.iat[i].key, 8);
      assert SectionsApart(o, k, p, j);
    }
  }

  lemma ApartBothWays(o: WinRuntimeObject, p: WinRuntimeObject)
    requires ImagesApart(o, p)
    ensures ImagesApart(p, o)
  {
    forall i: nat, j: nat | i < |p.pe.sections| && j < |o.pe.sections| ensures SectionsApart(p, i, o, j) {
      assert SectionsApart(o, j, p, i);
    }
  }

  /** In a loaded program every byte of every section of every image is that of its file, or zero in .bss, but for
      the import slots of the image itself. */
  lemma LoadedContents(p: Program, start: Memory, headersSize: Dword, i: nat, k: nat, x: int)
    requires Loaded(p) && ExecutableIn(p, start, headersSize)
    requires i <= |p.libs| && k < |Image(p.exe, p.libs, i).pe.sections|
    requires var pe := Image(p.exe, p.libs, i).pe;
      SectionStart(pe, k) <= x < SectionStart(pe, k) + pe.sections[k].virtualSize
    requires NotInSlot(Image(p.exe, p.libs, i), x)
    ensures x in p.after && p.after[x] == SectionByte(Image(p.exe, p.libs, i).pe, k, x)
  {
    hide Loaded, InitAll, ExecutableIn, ImagesMapped, Placement, LibrariesOk, LoadedDlls, NotInSlot, SectionByte;
    hide ImagesApart, PeOk, PageOk, SlotsMapped, ImageShown, ReadyToLoad, ProgramOk;
    var o := Image(p.exe, p.libs, i);
    var m := LoadedWellPlaced(p);
    StartShown(p, start, headersSize, m, i);
    assert SectionShown(m, o.pe, k) by {
      AllSectionsShown(m, o.pe, k);
    }
    forall j | 0 <= j <= |p.libs| ensures NotInSlot(Image(p.exe, p.libs, j), x) {
      if j != i {
        assert ImageOk(Image(p.exe, p.libs, j), p.libs);
        ImagePairApart(m, p.exe, p.libs, i, j);
        NotInOtherSlot(o, k, x, Image(p.exe, p.libs, j), p.libs);
      }
    }
    InitFrame(m, p.exe, p.libs, p.callback, p.after, x);
  }

  /** So the first byte of the function a call reaches is the one in the library's file, if no import slot lies
      there. */
  lemma ReachedByte(p: Program, start: Memory, headersSize: Dword, l: nat, name: string, address: int) returns (s: nat)
    requires Loaded(p) && ExecutableIn(p, start, headersSize)
    requires Exports(p, l, name, address) && NotInSlot(p.libs[l], address)
    ensures s < |p.libs[l].pe.sections|
    ensures SectionStart(p.libs[l].pe, s) <= address
         < SectionStart(p.libs[l].pe, s) + p.libs[l].pe.sections[s].virtualSize
    ensures address in p.after && p.after[address] == SectionByte(p.libs[l].pe, s, address)
  {
    hide Loaded, ExecutableIn, ExportNamed, NotInSlot, ProgramOk, ReadyToLoad, SectionByte;
    var pe := p.libs[l].pe;
    LoadBounds(p);
    FileOfImage(p.exe, p.libs, l + 1);
    ExportNamedHasName(pe.exports, name);
    var e := ExportNamed(pe.exports, name).value;
    assert InSection(pe, e.address, 1);
    s :| s < |pe.sections| && SectionHolds(pe, s, e.address, 1);
    LoadedContents(p, start, headersSize, l + 1, s, address);
  }

  lemma AllSectionsShown(m: Memory, pe: PeData, k: nat)
    requires k < |pe.sections| && ImageShown(m, pe)
    ensures SectionShown(m, pe, k)
  {
  }

  lemma ImagePairApart(m: Memory, exe: WinRuntimeObject, libs: seq<WinRuntimeObject>, i: nat, j: nat)
    requires WellPlaced(m, exe, libs) && i <= |libs| && j <= |libs| && i != j
    ensures ImagesApart(Image(exe, libs, i), Image(exe, libs, j))
  {
    hide ImagesApart, ImageOk, SlotsMapped;
    if j < i {
      ApartBothWays(Image(exe, libs, j), Image(exe, libs, i));
    }
  }

  /** At the start of the initialisation every image shows its file. */
  lemma StartShown(p: Program, start: Memory, headersSize: Dword, m: Memory, i: nat)
    requires Loaded(p) && ExecutableIn(p, start, headersSize) && ReleasedFrom(p, m)
    requires i <= |p.libs| && Image(p.exe, p.libs, i).pe.sections != []
    ensures ImageShown(m, Image(p.exe, p.libs, i).pe)
  {
    hide Loaded, ExecutableIn, ImagesMapped, ImageShown, FileOk, InMemory, FreeIn, ImagesApart, ProgramOk, Reserved;
    LoadBounds(p);
    var mapped := ImagesMapped(Reserved(p.before, p.base), p.libs).value;
    FileOfImage(p.exe, p.libs, i);
    FileOfImage(p.exe, p.libs, 0);
    forall j | 0 <= j < |p.libs| ensures ImageInSpace(p.libs[j].pe) {
      FileOfImage(p.exe, p.libs, j + 1);
    }
    ImagesComeIn(Reserved(p.before, p.base), p.libs, mapped);
    if i == 0 {
      ExecutableShown(p, start, headersSize, mapped);
    } else {
      ImagesShown(Reserved(p.before, p.base), p.libs, mapped, i - 1);
    }
    OutsideReserved(p, mapped, i);
    ShownReleased(mapped, p.base, Image(p.exe, p.libs, i).pe);
  }

  predicate AvoidsRange(pe: PeData, a: int, n: int) {
    forall k: nat | k < |pe.sections| :: Apart(SectionStart(pe, k), SectionExtent(pe, k), a, n)
  }

  lemma OutsideReserved(p: Program, mapped: Memory, i: nat)
    requires ReadyToLoad(p.before, p.exe, p.base) && AllComeIn(Reserved(p.before, p.base), p.libs, mapped)
    requires i <= |p.libs|
    ensures AvoidsRange(Image(p.exe, p.libs, i).pe, p.base, RESERVED_SIZE)
  {
    hide SectionExtent, ImagesApart;
    var pe := Image(p.exe, p.libs, i).pe;
    forall k: nat | k < |pe.sections|
      ensures Apart(SectionStart(pe, k), SectionExtent(pe, k), p.base, RESERVED_SIZE)
    {
      if i == 0 {
        MappedApart(p.before, SectionStart(pe, k), SectionExtent(pe, k), p.base, RESERVED_SIZE);
      } else {
        assert FreeIn(Reserved(p.before, p.base), p.libs[i - 1].pe);
        MappedApart(Reserved(p.before, p.base), p.base, RESERVED_SIZE, SectionStart(pe, k), SectionExtent(pe, k));
      }
    }
  }

  lemma ShownReleased(m: Memory, base: Word, pe: PeData)
    requires ImageShown(m, pe) && AvoidsRange(pe, base, RESERVED_SIZE)
    ensures ImageShown(Released(m, base), pe)
  {
    hide SectionByte;
    forall k: nat | k < |pe.sections| ensures SectionShown(Released(m, base), pe, k) {
      assert SectionShown(m, pe, k);
      PageUpNear(pe.sections[k].virtualSize);
    }
  }

  // ---------------------------------------------------------------- the headers of the executable

  lemma HeaderApart(m: Memory, pe: PeData, headersSize: Dword, m1: Memory, k: nat)
    requires ExeMapped(m, pe, headersSize) == Some(m1) && ImageInSpace(pe) && pe.imageBase < ADDRESS_LIMIT
    requires k < |pe.sections|
    ensures 0 < headersSize <= 0x1000 && Apart(pe.imageBase, headersSize, SectionStart(pe, k), SectionExtent(pe, k))
  {
    hide MapFrom, FillFrom, BssCleared, SectionRegion, SectionExtent, Wrap;
    var r := HeaderRegion(pe, headersSize);
    var rs := ImageRegions(pe, [r]);
    MapSucceeds(m, rs, pe.file, 0);
    HeaderLength(pe, headersSize);
    RegionOfSection(pe, [r], k);
    assert Mappable(m, rs[0]) && RegionsApart(rs[0], rs[1 + k]);
  }

  lemma HeaderLength(pe: PeData, headersSize: Dword)
    requires headersSize <= 0x1000 && pe.imageBase < ADDRESS_LIMIT
    ensures var r := HeaderRegion(pe, headersSize);
      Wrap(r.end - r.start) == headersSize && headersSize <= MappedLength(r)
  {
  }

  /** The header page shows the first bytes of the executable's file. */
  lemma HeaderShown(m: Memory, pe: PeData, headersSize: Dword, m1: Memory, x: int)
    requires ExeMapped(m, pe, headersSize) == Some(m1) && ImageInSpace(pe) && pe.imageBase < ADDRESS_LIMIT
    requires pe.imageBase <= x < pe.imageBase + headersSize
    ensures x in m1 && m1[x] == FileByte(pe.file, x - pe.imageBase)
  {
    hide MapFrom, FillFrom, MappedLength, SectionNamed, ImageRegions, RegionsApart, SectionRegion, WriteBytes;
    hide SectionExtent, FileByte, Wrap;
    var r := HeaderRegion(pe, headersSize);
    var rs := ImageRegions(pe, [r]);
    var m2 := MapFrom(m, rs, pe.file, 0).value;
    HeaderLength(pe, headersSize);
    HeaderHolds(pe, headersSize);
    assert rs == [r] + SectionRegions(pe.sections, pe.imageBase) && rs[0] == r by { FirstRegion(pe, r); }
    forall i | 0 <= i < |rs| ensures HoldsFile(rs[i]) {
      RegionsHoldFile(pe, [r], i);
    }
    SectionsLoaded(m, rs, pe.file, m2, 0);
    var filled := FillFrom(m2, rs, pe.file, 0);
    assert filled[x] == LoadedByte(r, pe.file, x - r.start);
    if s :| SectionNamed(pe.sections, ".bss") == Some(s) {
      var b :| 0 <= b < |pe.sections| && pe.sections[b] == s;
      BssInside(pe, [r], b);
      HeaderApart(m, pe, headersSize, m1, b);
      WrittenElsewhere(filled, SectionStart(pe, b), Zeros(s.virtualSize), x);
    }
  }

  lemma FirstRegion(pe: PeData, r: MemoryRegion)
    ensures ImageRegions(pe, [r]) == [r] + SectionRegions(pe.sections, pe.imageBase)
    ensures ImageRegions(pe, [r])[0] == r
  {
  }

  lemma WrittenElsewhere(m: Memory, a: int, data: seq<Byte>, x: int)
    requires x in m && Apart(a, |data|, x, 1)
    ensures x in WriteBytes(m, a, data) && WriteBytes(m, a, data)[x] == m[x]
  {
  }

  /** So it does in the loaded program. */
  lemma LoadedHeader(p: Program, start: Memory, headersSize: Dword, x: int)
    requires Loaded(p) && ExecutableIn(p, start, headersSize) && p.exe.pe.imageBase < ADDRESS_LIMIT
    requires p.exe.pe.imageBase <= x < p.exe.pe.imageBase + headersSize
    ensures x in p.after && p.after[x] == FileByte(p.exe.pe.file, x - p.exe.pe.imageBase)
  {
    hide Loaded, InitAll, ExeMapped, ImagesMapped, Placement, LibrariesOk, LoadedDlls, NotInSlot;
    hide ImagesApart, PeOk, PageOk, SlotsMapped, Reserved, Released, InMemory, FreeIn, FileByte;
    var pe := p.exe.pe;
    LoadBounds(p);
    FileOfImage(p.exe, p.libs, 0);
    var own := ExeMapped(start, pe, headersSize).value;
    HeaderShown(start, pe, headersSize, own, x);
    assert x in p.before && p.before[x] == own[x];
    var m := LoadedWellPlaced(p);
    HeaderStays(p, m, x);
    forall j | 0 <= j <= |p.libs| ensures NotInSlot(Image(p.exe, p.libs, j), x) {
      FileOfImage(p.exe, p.libs, j);
      if j == 0 {
        forall k: nat | k < |pe.sections| ensures Apart(SectionStart(pe, k), SectionExtent(pe, k), x, 1) {
          HeaderApart(start, pe, headersSize, own, k);
        }
      } else {
        LibraryElsewhere(p, j - 1, x);
      }
      OutsideSections(Image(p.exe, p.libs, j), p.libs, x);
    }
    InitFrame(m, p.exe, p.libs, p.callback, p.after, x);
  }

  lemma OutsideSections(o: WinRuntimeObject, libs: seq<WinRuntimeObject>, x: int)
    requires PeOk(o.pe, libs)
    requires forall k: nat :: k < |o.pe.sections| ==> Apart(SectionStart(o.pe, k), SectionExtent(o.pe, k), x, 1)
    ensures NotInSlot(o, x)
  {
    hide SectionExtent;
    forall i | 0 <= i < |o.pe.iat| ensures Apart(o.pe.imageBase + o.pe.iat[i].key, 8, x, 1) {
      assert InSection(o.pe, o.pe.iat[i].key, 8);
      var k: nat :| k < |o.pe.sections| && SectionHolds(o.pe, k, o.pe.iat[i].key, 8);
      ExtentHolds(o.pe, k);
    }
  }

  lemma ExtentHolds(pe: PeData, k: nat)
    requires k < |pe.sections|
    ensures pe.sections[k].virtualSize <= SectionExtent(pe, k)
  {
    PageUpNear(pe.sections[k].virtualSize);
  }

  // What was mapped before the DLLs lies in none of their sections.
  lemma LibraryElsewhere(p: Program, i: nat, x: int)
    requires Loaded(p) && i < |p.libs| && x in p.before
    ensures forall k: nat :: k < |p.libs[i].pe.sections| ==>
      Apart(SectionStart(p.libs[i].pe, k), SectionExtent(p.libs[i].pe, k), x, 1)
  {
    hide Loaded, ImagesMapped, ImagesApart, ProgramOk, ReadyToLoad, LoadedDlls, InMemory, SectionExtent;
    LoadBounds(p);
    var mapped := LoadStages(p);
    forall j | 0 <= j < |p.libs| ensures ImageInSpace(p.libs[j].pe) {
      FileOfImage(p.exe, p.libs, j + 1);
    }
    ImagesComeIn(Reserved(p.before, p.base), p.libs, mapped);
    assert FreeIn(Reserved(p.before, p.base), p.libs[i].pe) && x in Reserved(p.before, p.base);
  }

  lemma HeaderStays(p: Program, m: Memory, x: int)
    requires Loaded(p) && ReleasedFrom(p, m) && x in p.before
    ensures x in m && m[x] == p.before[x]
  {
    hide Loaded, ImagesMapped, ImagesApart, ProgramOk, LoadedDlls, InMemory, FreeIn;
    LoadBounds(p);
    var mapped := ImagesMapped(Reserved(p.before, p.base), p.libs).value;
    forall j | 0 <= j < |p.libs| ensures ImageInSpace(p.libs[j].pe) {
      FileOfImage(p.exe, p.libs, j + 1);
    }
    ImagesComeIn(Reserved(p.before, p.base), p.libs, mapped);
    assert x in Reserved(p.before, p.base);
  }

  // ---------------------------------------------------------------- variables

  /** The import names data: symbol `t` of library `l`, the first of its name in the first library of its name. */
  predicate NamesVariable(p: Program, e: ImportAddressEntry, l: nat, t: nat) {
    && l < |p.libs| && t < |p.libs[l].pe.symbols|
    && e.value != 0 && e.libName == Some(p.libs[l].name) && e.importName == Some(p.libs[l].pe.symbols[t].name)
    && (forall j | 0 <= j < l :: p.libs[j].name != p.libs[l].name)
    && (forall j | 0 <= j < t :: p.libs[l].pe.symbols[j].name != p.libs[l].pe.symbols[t].name)
    && p.libs[l].pe.symbols[t].symbolType != 0x20 && p.libs[l].pe.symbols[t].storageClass == 2
    && 0 <= p.libs[l].pe.symbols[t].sectionIndex < |p.libs[l].pe.sections|
  }

  /** The slot of a variable import holds the variable's address: image base, section and value. */
  lemma LoadedVariable(p: Program, k: nat, i: nat, l: nat, t: nat)
    requires Loaded(p) && k <= |p.libs| && i < |Image(p.exe, p.libs, k).pe.iat|
    requires NamesVariable(p, Image(p.exe, p.libs, k).pe.iat[i], l, t)
    ensures var o, lib := Image(p.exe, p.libs, k), p.libs[l].pe;
      var s := lib.symbols[t];
      var address := lib.imageBase + lib.sections[s.sectionIndex].virtualBase + s.value;
      0 <= s.value && (0 < address < WORD_LIMIT ==> LoadWord(p.after, o.pe.imageBase + o.pe.iat[i].key) == address)
  {
    hide Loaded, Placement, ImageOk, LoadWord;
    var o := Image(p.exe, p.libs, k);
    var e := o.pe.iat[i];
    LoadMakesReady(p);
    assert ImageReady(p, k) && SlotInstalled(p.after, o, i, p.libs, p.callback);
    ObjectNamedIsFirst(p.libs, p.libs[l].name, l);
    SymbolNamedIsFirst(p.libs[l].pe.symbols, p.libs[l].pe.symbols[t].name, t);
    hide ObjectNamed, SymbolNamed;
    var s := p.libs[l].pe.symbols[t];
    assert VariableOf(e, p.libs) == Some((p.libs[l], s));
    var address := p.libs[l].pe.imageBase + p.libs[l].pe.sections[s.sectionIndex].virtualBase + s.value;
    if 0 < address < WORD_LIMIT {
      assert Wrap(address) == address;
      HoldsWord(p.after, o.pe.imageBase + e.key, address);
    }
  }
}
