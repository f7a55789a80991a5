/** The sections of a PE image in memory: anonymous pages that the file is then read into. */
module PeSections {
  import opened AddressSpace
  import opened MemoryRegions
  import opened RegionMapping
  import opened SectionBytes
  import opened WinImages
  import opened Words

  // ---------------------------------------------------------------- PE sections

  function PageUp(n: nat): nat {
    (n + PAGE_SIZE - 1) / PAGE_SIZE * PAGE_SIZE
  }

  function Permissions(characteristics: nat): nat {
    var win := characteristics / 0x1000_0000;
    (if win / 4 % 2 == 1 then 4 else 0) + (if win / 8 % 2 == 1 then 2 else 0) + (if win / 2 % 2 == 1 then 1 else 0)
  }

  /** Read, write and execute are 4, 2 and 1 as in program headers, for the three memory flags of the Microsoft PE
      format ("Section Flags"). */
  lemma PermissionFlags(characteristics: Dword)
    ensures Permissions(characteristics) / 4 % 2 == 1 <==> characteristics / 0x4000_0000 % 2 == 1
    ensures Permissions(characteristics) / 2 % 2 == 1 <==> characteristics / 0x8000_0000 % 2 == 1
    ensures Permissions(characteristics) % 2 == 1 <==> characteristics / 0x2000_0000 % 2 == 1
    ensures Permissions(characteristics) < 8
  {
    var win: nat := characteristics / 0x1000_0000;
    assert win / 4 == characteristics / 0x4000_0000;
    assert win / 8 == characteristics / 0x8000_0000;
    assert win / 2 == characteristics / 0x2000_0000;
  }

  /** The region of a section; as many bytes are read into it as the section has in memory, not in the file. */
  function SectionRegion(s: Section, base: Word): MemoryRegion
  {
    var start := Wrap(base + s.virtualBase);
    MemoryRegion(start, Wrap(start + PageUp(s.virtualSize)), false, s.fileOffset, s.virtualSize,
                 Permissions(s.characteristics))
  }

  function SectionRegions(sections: seq<Section>, base: Word): (r: seq<MemoryRegion>)
    ensures |r| == |sections|
  {
    seq(|sections|, i requires 0 <= i < |sections| => SectionRegion(sections[i], base))
  }

  /** `get_memory_regions_win`. */
  method GetMemoryRegionsWin(sections: seq<Section>, base: Word) returns (regions: seq<MemoryRegion>)
    ensures regions == SectionRegions(sections, base)
  {
    regions := [];
    for i := 0 to |sections|
      invariant regions == SectionRegions(sections, base)[..i]
    {
      var s := sections[i];
      var regionSize := (s.virtualSize + PAGE_SIZE - 1) / PAGE_SIZE * PAGE_SIZE;
      var win := s.characteristics / 0x1000_0000;
      var read := if win / 4 % 2 == 1 then 4 else 0;
      var write := if win / 8 % 2 == 1 then 2 else 0;
      var execute := if win / 2 % 2 == 1 then 1 else 0;
      var start := Wrap(base + s.virtualBase);
      var end := Wrap(start + regionSize);
      regions := regions + [MemoryRegion(start, end, false, s.fileOffset, s.virtualSize, read + write + execute)];
    }
  }

  function LoadedByte(r: MemoryRegion, file: seq<Byte>, k: int): Byte {
    FileByte(file, r.fileOffset + k)
  }

  /** What is read into a region; the read stops at the end of the file. */
  function ReadInto(r: MemoryRegion, file: seq<Byte>): (bytes: seq<Byte>)
    ensures |bytes| <= r.fileSize
    ensures forall k :: 0 <= k < |bytes| ==> bytes[k] == LoadedByte(r, file, k)
    ensures forall k :: |bytes| <= k < r.fileSize ==> LoadedByte(r, file, k) == 0
  {
    if r.fileOffset >= |file| then []
    else if r.fileOffset + r.fileSize <= |file| then file[r.fileOffset..r.fileOffset + r.fileSize]
    else file[r.fileOffset..]
  }

  function FillFrom(m: Memory, rs: seq<MemoryRegion>, file: seq<Byte>, k: nat): Memory
    requires k <= |rs|
    decreases |rs| - k
  {
    if k == |rs| then m else FillFrom(WriteBytes(m, rs[k].start, ReadInto(rs[k], file)), rs, file, k + 1)
  }

  /** `map_memory_regions_win`; the protection that each region gets in the end is not part of the memory. */
  method MapMemoryRegionsWin(memory: Memory, rs: seq<MemoryRegion>, file: seq<Byte>) returns (ok: bool, after: Memory)
    ensures match MapFrom(memory, rs, file, 0)
            case None => !ok
            case Some(m) => ok && after == FillFrom(m, rs, file, 0)
  {
    hide MapFrom, ReadInto;
    ok, after := MapMemoryRegions(memory, rs, file);
    if !ok {
      return;
    }
    ghost var mapped := after;
    for k := 0 to |rs|
      invariant FillFrom(mapped, rs, file, 0) == FillFrom(after, rs, file, k)
    {
      after := WriteBytes(after, rs[k].start, ReadInto(rs[k], file));
    }
  }

  // A region covers what is read into it.
  predicate HoldsFile(r: MemoryRegion) {
    !r.isDirectFileMap && r.fileSize <= MappedLength(r)
  }

  /** The bytes of a section in memory: those of the file, as many as the section has in memory, then zeros. */
  predicate Shows(m: Memory, r: MemoryRegion, file: seq<Byte>) {
    forall x | r.start <= x < r.start + MappedLength(r) ::
      x in m && m[x] == if x - r.start < r.fileSize then LoadedByte(r, file, x - r.start) else 0
  }

  predicate Zeroed(m: Memory, r: MemoryRegion) {
    forall x | r.start <= x < r.start + MappedLength(r) :: x in m && m[x] == 0
  }

  lemma FilledOwn(m: Memory, r: MemoryRegion, file: seq<Byte>)
    requires HoldsFile(r) && Zeroed(m, r)
    ensures Shows(WriteBytes(m, r.start, ReadInto(r, file)), r, file)
  {
    hide MappedLength, WriteBytes, ReadInto;
  }

  lemma FilledElsewhere(m: Memory, r: MemoryRegion, data: seq<Byte>, q: MemoryRegion, file: seq<Byte>)
    requires |data| <= MappedLength(r) && RegionsApart(r, q)
    ensures Shows(m, q, file) ==> Shows(WriteBytes(m, r.start, data), q, file)
    ensures Zeroed(m, q) ==> Zeroed(WriteBytes(m, r.start, data), q)
  {
    hide MappedLength, WriteBytes;
  }

  lemma ReadFits(r: MemoryRegion, file: seq<Byte>)
    requires HoldsFile(r)
    ensures |ReadInto(r, file)| <= MappedLength(r)
  {
  }

  lemma {:induction false} FillShows(m: Memory, rs: seq<MemoryRegion>, file: seq<Byte>, k: nat, i: nat)
    requires k <= |rs| && i < |rs|
    requires forall j :: 0 <= j < |rs| ==> HoldsFile(rs[j])
    requires forall j :: k <= j < |rs| && j != i ==> RegionsApart(rs[j], rs[i])
    requires if k <= i then Zeroed(m, rs[i]) else Shows(m, rs[i], file)
    ensures Shows(FillFrom(m, rs, file, k), rs[i], file)
    decreases |rs| - k
  {
    hide Shows, Zeroed, RegionsApart, WriteBytes, ReadInto, HoldsFile, MappedLength;
    assert HoldsFile(rs[i]);
    if k < |rs| {
      if k == i {
        FilledOwn(m, rs[i], file);
      } else {
        ReadFits(rs[k], file);
        FilledElsewhere(m, rs[k], ReadInto(rs[k], file), rs[i], file);
      }
      FillShows(WriteBytes(m, rs[k].start, ReadInto(rs[k], file)), rs, file, k + 1, i);
    }
  }

  lemma MappedZero(m: Memory, r: MemoryRegion, file: seq<Byte>)
    requires !r.isDirectFileMap && Holds(m, r.start, Content(r, file))
    ensures Zeroed(m, r)
  {
    hide MappedLength, Content;
    forall x | r.start <= x < r.start + MappedLength(r) ensures x in m && m[x] == 0 {
      assert Content(r, file)[x - r.start] == ContentByte(r, file, x - r.start);
    }
  }

  /** A mapped PE image shows every section's file bytes, whatever the other sections are. */
  lemma SectionsLoaded(m: Memory, rs: seq<MemoryRegion>, file: seq<Byte>, m1: Memory, i: nat)
    requires MapFrom(m, rs, file, 0) == Some(m1) && i < |rs|
    requires forall j :: 0 <= j < |rs| ==> HoldsFile(rs[j])
    ensures Shows(FillFrom(m1, rs, file, 0), rs[i], file)
  {
    hide MapFrom, Shows, Zeroed, MappedLength, FillFrom;
    MapShows(m, rs, file, 0, m1, i);
    MappedZero(m1, rs[i], file);
    MapSucceeds(m, rs, file, 0);
    forall j | 0 <= j < |rs| && j != i ensures RegionsApart(rs[j], rs[i]) {
      assert RegionsApart(rs[if j < i then j else i], rs[if j < i then i else j]);
    }
    FillShows(m1, rs, file, 0, i);
  }

  /** Sections whose page-aligned address ranges are apart get regions apart, each just long enough. */
  lemma SectionRegionsApart(s: Section, t: Section, base: Word)
    requires base + 4 * UINT32_LIMIT < WORD_LIMIT
    requires s.virtualBase % PAGE_SIZE == 0 == t.virtualBase % PAGE_SIZE && s.virtualSize > 0
    ensures RegionsApart(SectionRegion(s, base), SectionRegion(t, base))
        <==> Apart(s.virtualBase, PageUp(s.virtualSize), t.virtualBase, PageUp(t.virtualSize))
    ensures s.virtualBase + s.virtualSize <= t.virtualBase ==>
      RegionsApart(SectionRegion(s, base), SectionRegion(t, base))
    ensures HoldsFile(SectionRegion(s, base))
    ensures MappedLength(SectionRegion(s, base)) < s.virtualSize + PAGE_SIZE
  {
    SectionLength(s, base);
    SectionLength(t, base);
    PageUpNear(s.virtualSize);
    PageUpNear(t.virtualSize);
    hide SectionRegion, MappedLength, Permissions, PageUp;
    if s.virtualBase + s.virtualSize <= t.virtualBase {
      PageUpBelow(s.virtualSize, s.virtualBase, t.virtualBase);
    }
  }

  lemma PageUpNear(n: nat)
    ensures n <= PageUp(n) < n + PAGE_SIZE
  {
  }

  lemma PageUpBelow(n: nat, from: nat, to: nat)
    requires from + n <= to && from % PAGE_SIZE == 0 == to % PAGE_SIZE
    ensures from + PageUp(n) <= to
  {
  }

  lemma SectionLength(s: Section, base: Word)
    requires base + 4 * UINT32_LIMIT < WORD_LIMIT
    ensures SectionRegion(s, base).start == base + s.virtualBase
    ensures MappedLength(SectionRegion(s, base)) == PageUp(s.virtualSize)
    ensures SectionRegion(s, base).fileSize == s.virtualSize && !SectionRegion(s, base).isDirectFileMap
  {
    hide Permissions;
    assert Wrap(SectionRegion(s, base).end - SectionRegion(s, base).start) == PageUp(s.virtualSize);
  }

  // The Microsoft PE format ("Section Table"): beyond its bytes in the file a section is zero.
  ghost predicate PaddedWithZeros(m: Memory, s: Section, start: int) {
    forall x :: start + s.fileSize <= x < start + s.virtualSize ==> x in m && m[x] == 0
  }

  predicate ZerosFollow(s: Section, file: seq<Byte>) {
    forall at | s.fileOffset + s.fileSize <= at < s.fileOffset + s.virtualSize :: FileByte(file, at) == 0
  }

  /** The loader pads a section with zeros exactly when the file does: the rest of the section is read from
      whatever follows in the file. */
  lemma PaddingFromFile(m: Memory, s: Section, base: Word, file: seq<Byte>)
    requires base + 4 * UINT32_LIMIT < WORD_LIMIT && Shows(m, SectionRegion(s, base), file)
    ensures PaddedWithZeros(m, s, base + s.virtualBase) <==> ZerosFollow(s, file)
  {
    var r, start := SectionRegion(s, base), base + s.virtualBase;
    SectionLength(s, base);
    FileOffsetKept(s, base);
    assert s.virtualSize <= MappedLength(r);
    hide SectionRegion, MappedLength, FileByte;
    forall x | start <= x < start + s.virtualSize
      ensures x in m && m[x] == FileByte(file, s.fileOffset + (x - start))
    {
      assert m[x] == LoadedByte(r, file, x - r.start);
    }
    if PaddedWithZeros(m, s, start) {
      forall at | s.fileOffset + s.fileSize <= at < s.fileOffset + s.virtualSize ensures FileByte(file, at) == 0 {
        var x := start + (at - s.fileOffset);
        assert m[x] == FileByte(file, s.fileOffset + (x - start));
      }
    }
  }

  lemma FileOffsetKept(s: Section, base: Word)
    ensures SectionRegion(s, base).fileOffset == s.fileOffset
  {
  }

  // ---------------------------------------------------------------- a whole image

  /** The first section with the name. */
  function SectionNamed(sections: seq<Section>, name: string): (s: Option<Section>)
    ensures s.Some? ==> s.value in sections
  {
    if sections == [] then None
    else if sections[0].name == name then Some(sections[0])
    else SectionNamed(sections[1..], name)
  }

  lemma {:induction false} SectionNamedIsFirst(sections: seq<Section>, name: string, k: nat)
    requires k < |sections| && sections[k].name == name
    requires forall j :: 0 <= j < k ==> sections[j].name != name
    ensures SectionNamed(sections, name) == Some(sections[k])
  {
    if k > 0 {
      assert sections[0].name != name;
      forall j | 0 <= j < k - 1 ensures sections[1..][j].name != name {
        assert sections[1..][j] == sections[j + 1];
      }
      SectionNamedIsFirst(sections[1..], name, k - 1);
    }
  }

  lemma {:induction false} NoSectionNamed(sections: seq<Section>, name: string)
    requires forall j :: 0 <= j < |sections| ==> sections[j].name != name
    ensures SectionNamed(sections, name) == None
  {
    if sections != [] {
      assert sections[0].name != name;
      forall j | 0 <= j < |sections| - 1 ensures sections[1..][j].name != name {
        assert sections[1..][j] == sections[j + 1];
      }
      NoSectionNamed(sections[1..], name);
    }
  }

  method FindWinSectionHeader(sections: seq<Section>, name: string) returns (s: Option<Section>)
    ensures s == SectionNamed(sections, name)
  {
    for i := 0 to |sections|
      invariant SectionNamed(sections, name) == SectionNamed(sections[i..], name)
    {
      if sections[i].name == name {
        return Some(sections[i]);
      }
      assert sections[i..][1..] == sections[i + 1..];
    }
    return None;
  }

  function BssCleared(m: Memory, pe: PeData): Memory {
    match SectionNamed(pe.sections, ".bss")
    case None => m
    case Some(s) => WriteBytes(m, Wrap(pe.imageBase + s.virtualBase), Zeros(s.virtualSize))
  }

  function ImageRegions(pe: PeData, headers: seq<MemoryRegion>): seq<MemoryRegion> {
    headers + SectionRegions(pe.sections, pe.imageBase)
  }

  /** Memory with an image mapped, read and its .bss cleared; `headers` are regions that are mapped first. */
  function ImageMapped(m: Memory, pe: PeData, headers: seq<MemoryRegion>): Option<Memory> {
    match MapFrom(m, ImageRegions(pe, headers), pe.file, 0)
    case None => None
    case Some(m1) => Some(BssCleared(FillFrom(m1, ImageRegions(pe, headers), pe.file, 0), pe))
  }

  method MapImage(memory: Memory, pe: PeData, headers: seq<MemoryRegion>) returns (ok: bool, after: Memory)
    ensures ImageMapped(memory, pe, headers) == if ok then Some(after) else None
  {
    hide MapFrom, FillFrom, SectionRegions, SectionNamed, WriteBytes;
    var regions := GetMemoryRegionsWin(pe.sections, pe.imageBase);
    ok, after := MapMemoryRegionsWin(memory, headers + regions, pe.file);
    if !ok {
      return;
    }
    var bss := FindWinSectionHeader(pe.sections, ".bss");
    if bss.Some? {
      after := WriteBytes(after, Wrap(pe.imageBase + bss.value.virtualBase), Zeros(bss.value.virtualSize));
    }
  }

  // Sections lie in user space, and headers are read into regions that hold them.
  predicate ImageInSpace(pe: PeData) {
    && 0 < pe.imageBase
    && forall s | s in pe.sections :: pe.imageBase + s.virtualBase + s.virtualSize + PAGE_SIZE <= ADDRESS_LIMIT
  }

  predicate HeadersOk(headers: seq<MemoryRegion>) {
    forall r | r in headers :: HoldsFile(r)
  }

  function SectionStart(pe: PeData, k: nat): int
    requires k < |pe.sections|
  {
    pe.imageBase + pe.sections[k].virtualBase
  }

  function SectionExtent(pe: PeData, k: nat): nat
    requires k < |pe.sections|
  {
    PageUp(pe.sections[k].virtualSize)
  }

  lemma RegionOfSection(pe: PeData, headers: seq<MemoryRegion>, k: nat)
    requires k < |pe.sections| && ImageInSpace(pe)
    ensures |headers| + k < |ImageRegions(pe, headers)|
    ensures ImageRegions(pe, headers)[|headers| + k] == SectionRegion(pe.sections[k], pe.imageBase)
    ensures SectionRegion(pe.sections[k], pe.imageBase).start == SectionStart(pe, k)
    ensures MappedLength(SectionRegion(pe.sections[k], pe.imageBase)) == SectionExtent(pe, k)
    ensures HoldsFile(SectionRegion(pe.sections[k], pe.imageBase))
  {
    assert pe.sections[k] in pe.sections;
    SectionLength(pe.sections[k], pe.imageBase);
    PageUpNear(pe.sections[k].virtualSize);
  }

  lemma RegionsHoldFile(pe: PeData, headers: seq<MemoryRegion>, j: nat)
    requires ImageInSpace(pe) && HeadersOk(headers) && j < |ImageRegions(pe, headers)|
    ensures HoldsFile(ImageRegions(pe, headers)[j])
  {
    if j < |headers| {
      assert headers[j] in headers;
    } else {
      RegionOfSection(pe, headers, j - |headers|);
    }
  }

  predicate RangeMapped(m: Memory, a: int, n: nat) {
    forall x | a <= x < a + n :: x in m
  }

  lemma {:induction false} FillGrows(m: Memory, rs: seq<MemoryRegion>, file: seq<Byte>, k: nat, a: int, n: nat)
    requires k <= |rs| && RangeMapped(m, a, n)
    ensures RangeMapped(FillFrom(m, rs, file, k), a, n)
    decreases |rs| - k
  {
    hide WriteBytes, ReadInto;
    if k < |rs| {
      FillGrows(WriteBytes(m, rs[k].start, ReadInto(rs[k], file)), rs, file, k + 1, a, n);
    }
  }

  /** A mapped image has all its sections in memory, at addresses that were free before. */
  lemma ImageMaps(m: Memory, pe: PeData, headers: seq<MemoryRegion>, m1: Memory, k: nat)
    requires ImageMapped(m, pe, headers) == Some(m1) && ImageInSpace(pe) && k < |pe.sections|
    ensures SectionExtent(pe, k) > 0
    ensures RangeFree(m, SectionStart(pe, k), SectionExtent(pe, k))
    ensures RangeMapped(m1, SectionStart(pe, k), SectionExtent(pe, k))
  {
    hide MapFrom, FillFrom, ImageRegions, MappedLength, SectionExtent, Content;
    var rs, j := ImageRegions(pe, headers), |headers| + k;
    var m2 := MapFrom(m, rs, pe.file, 0).value;
    RegionOfSection(pe, headers, k);
    MapSucceeds(m, rs, pe.file, 0);
    assert Mappable(m, rs[j]);
    LengthPositive(rs[j]);
    MapShows(m, rs, pe.file, 0, m2, j);
    FillGrows(m2, rs, pe.file, 0, SectionStart(pe, k), SectionExtent(pe, k));
  }

  // ---------------------------------------------------------------- what is left alone

  lemma {:induction false} FillKeeps(m: Memory, rs: seq<MemoryRegion>, file: seq<Byte>, k: nat, x: int)
    requires k <= |rs| && x in m
    requires forall j :: 0 <= j < |rs| ==> HoldsFile(rs[j]) && Apart(rs[j].start, MappedLength(rs[j]), x, 1)
    ensures x in FillFrom(m, rs, file, k) && FillFrom(m, rs, file, k)[x] == m[x]
    decreases |rs| - k
  {
    hide WriteBytes, ReadInto, MappedLength;
    if k < |rs| {
      ReadFits(rs[k], file);
      FillKeeps(WriteBytes(m, rs[k].start, ReadInto(rs[k], file)), rs, file, k + 1, x);
    }
  }

  /** Mapping an image changes nothing that was there. */
  lemma ImageMapKeeps(m: Memory, pe: PeData, headers: seq<MemoryRegion>, m1: Memory, x: int)
    requires ImageMapped(m, pe, headers) == Some(m1) && ImageInSpace(pe) && HeadersOk(headers) && x in m
    ensures x in m1 && m1[x] == m[x]
  {
    hide MapFrom, FillFrom, ImageRegions, MappedLength, SectionNamed;
    var rs := ImageRegions(pe, headers);
    var m2 := MapFrom(m, rs, pe.file, 0).value;
    MapKeeps(m, rs, pe.file, 0, m2, x, [m[x]]);
    MapSucceeds(m, rs, pe.file, 0);
    forall j | 0 <= j < |rs| ensures HoldsFile(rs[j]) && Apart(rs[j].start, MappedLength(rs[j]), x, 1) {
      RegionsHoldFile(pe, headers, j);
      assert Mappable(m, rs[j]);
    }
    FillKeeps(m2, rs, pe.file, 0, x);
    if s :| SectionNamed(pe.sections, ".bss") == Some(s) {
      var k :| 0 <= k < |pe.sections| && pe.sections[k] == s;
      BssInside(pe, headers, k);
      assert Apart(SectionStart(pe, k), SectionExtent(pe, k), x, 1);
    }
  }

  lemma BssInside(pe: PeData, headers: seq<MemoryRegion>, k: nat)
    requires k < |pe.sections| && ImageInSpace(pe)
    ensures Wrap(pe.imageBase + pe.sections[k].virtualBase) == SectionStart(pe, k)
    ensures pe.sections[k].virtualSize <= SectionExtent(pe, k)
    ensures |headers| + k < |ImageRegions(pe, headers)|
    ensures ImageRegions(pe, headers)[|headers| + k].start == SectionStart(pe, k)
    ensures MappedLength(ImageRegions(pe, headers)[|headers| + k]) == SectionExtent(pe, k)
  {
    assert pe.sections[k] in pe.sections;
    RegionOfSection(pe, headers, k);
    PageUpNear(pe.sections[k].virtualSize);
  }

  /** Every section but .bss shows its file bytes after the load. */
  lemma ImageShows(m: Memory, pe: PeData, headers: seq<MemoryRegion>, m1: Memory, k: nat)
    requires ImageMapped(m, pe, headers) == Some(m1) && ImageInSpace(pe) && HeadersOk(headers) && k < |pe.sections|
    requires SectionNamed(pe.sections, ".bss") != Some(pe.sections[k])
    ensures Shows(m1, SectionRegion(pe.sections[k], pe.imageBase), pe.file)
  {
    hide MapFrom, FillFrom, MappedLength, SectionNamed, Shows, ImageRegions, RegionsApart, SectionRegion, WriteBytes;
    var rs, j := ImageRegions(pe, headers), |headers| + k;
    var m2 := MapFrom(m, rs, pe.file, 0).value;
    RegionOfSection(pe, headers, k);
    forall i | 0 <= i < |rs| ensures HoldsFile(rs[i]) {
      RegionsHoldFile(pe, headers, i);
    }
    SectionsLoaded(m, rs, pe.file, m2, j);
    if s :| SectionNamed(pe.sections, ".bss") == Some(s) {
      var b :| 0 <= b < |pe.sections| && pe.sections[b] == s;
      BssInside(pe, headers, b);
      OthersApart(m, rs, pe.file, |headers| + b, j);
      FilledElsewhere(FillFrom(m2, rs, pe.file, 0), rs[|headers| + b], Zeros(s.virtualSize), rs[j], pe.file);
    }
  }

  /** A section with one byte in the file and two in memory: the second one is the file's next byte. */
  lemma NextByteRead(m: Memory, pe: PeData, m1: Memory)
    requires pe.imageBase == 0x40_0000 && pe.sections == [Section(".data", 2, 0x1000, 1, 0, 0)] && pe.file == [7, 9]
    requires ImageMapped(m, pe, []) == Some(m1)
    ensures 0x40_1001 in m1 && m1[0x40_1001] == 9
  {
    hide ImageMapped, MappedLength, PageUp;
    var r := SectionRegion(pe.sections[0], pe.imageBase);
    RegionOfSection(pe, [], 0);
    PageUpNear(2);
    assert ".data"[1] != ".bss"[1];
    NoSectionNamed(pe.sections, ".bss");
    ImageShows(m, pe, [], m1, 0);
    hide SectionRegion;
    FileOffsetKept(pe.sections[0], pe.imageBase);
    assert LoadedByte(r, pe.file, 1) == 9;
  }

  lemma OthersApart(m: Memory, rs: seq<MemoryRegion>, file: seq<Byte>, c: nat, j: nat)
    requires MapFrom(m, rs, file, 0).Some? && c < |rs| && j < |rs| && c != j
    ensures RegionsApart(rs[c], rs[j])
  {
    hide MapFrom, MappedLength;
    MapSucceeds(m, rs, file, 0);
    assert RegionsApart(rs[if c < j then c else j], rs[if c < j then j else c]);
  }

  /** And .bss is zero. */
  lemma BssShows(m: Memory, pe: PeData, headers: seq<MemoryRegion>, m1: Memory, k: nat)
    requires ImageMapped(m, pe, headers) == Some(m1) && ImageInSpace(pe) && k < |pe.sections|
    requires SectionNamed(pe.sections, ".bss") == Some(pe.sections[k])
    ensures forall x :: SectionStart(pe, k) <= x < SectionStart(pe, k) + pe.sections[k].virtualSize ==>
      x in m1 && m1[x] == 0
  {
    hide MapFrom, FillFrom, SectionNamed;
    BssInside(pe, headers, k);
  }
}
