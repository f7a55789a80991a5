/** Mapping memory regions into the address space, and the segments of an ELF file in memory. */
module RegionMapping {
  import opened AddressSpace
  import opened MemoryRegions
  import opened SectionBytes
  import opened Words

  // ---------------------------------------------------------------- fixed mappings

  // A mapping consists of whole pages.
  function MappedLength(r: MemoryRegion): nat {
    var len := Wrap(r.end - r.start);
    (len + PAGE_SIZE - 1) / PAGE_SIZE * PAGE_SIZE
  }

  function ContentByte(r: MemoryRegion, file: seq<Byte>, k: int): Byte {
    if r.isDirectFileMap then FileByte(file, r.fileOffset + k) else 0
  }

  /** What a new mapping shows: the file from its offset on, or zeros. A byte beyond the file's last page has
      no meaning. */
  function Content(r: MemoryRegion, file: seq<Byte>): (bytes: seq<Byte>)
    ensures |bytes| == MappedLength(r)
    ensures forall k :: 0 <= k < |bytes| ==> bytes[k] == ContentByte(r, file, k)
  {
    seq<Byte>(MappedLength(r), k => ContentByte(r, file, k))
  }

  // The kernel's own conditions for a fixed mapping that replaces nothing.
  predicate Mappable(m: Memory, r: MemoryRegion) {
    && Wrap(r.end - r.start) > 0 && r.start % PAGE_SIZE == 0
    && (r.isDirectFileMap ==> r.fileOffset % PAGE_SIZE == 0)
    && RangeFree(m, r.start, MappedLength(r))
  }

  function MapFrom(m: Memory, rs: seq<MemoryRegion>, file: seq<Byte>, k: nat): Option<Memory>
    requires k <= |rs|
    decreases |rs| - k
  {
    if k == |rs| then Some(m)
    else if !Mappable(m, rs[k]) then None
    else MapFrom(WriteBytes(m, rs[k].start, Content(rs[k], file)), rs, file, k + 1)
  }

  /** `map_memory_regions`, from the memory before to the memory after; regions mapped before the one that
      fails stay mapped. */
  method MapMemoryRegions(memory: Memory, rs: seq<MemoryRegion>, file: seq<Byte>) returns (ok: bool, after: Memory)
    ensures MapFrom(memory, rs, file, 0) == if ok then Some(after) else None
  {
    hide Mappable, Content;
    after := memory;
    for k := 0 to |rs|
      invariant MapFrom(memory, rs, file, 0) == MapFrom(after, rs, file, k)
    {
      if !Mappable(after, rs[k]) {
        return false, after;
      }
      after := WriteBytes(after, rs[k].start, Content(rs[k], file));
    }
    return true, after;
  }

  /** The kernel refuses a file mapping that does not start on a page of the file: here one at offset 0x10. */
  lemma UnalignedRefused(m: Memory, file: seq<Byte>)
    ensures MapFrom(m, [MemoryRegion(0x1000, 0x2000, true, 0x10, 0, 5)], file, 0) == None
  {
  }

  predicate RegionsApart(r: MemoryRegion, q: MemoryRegion) {
    Apart(r.start, MappedLength(r), q.start, MappedLength(q))
  }

  ghost predicate AllMappable(m: Memory, rs: seq<MemoryRegion>, k: nat) {
    && (forall i :: k <= i < |rs| ==> Mappable(m, rs[i]))
    && (forall i, j :: k <= i < j < |rs| ==> RegionsApart(rs[i], rs[j]))
  }

  lemma LengthPositive(r: MemoryRegion)
    requires Wrap(r.end - r.start) > 0
    ensures MappedLength(r) >= PAGE_SIZE
  {
  }

  lemma OverlapMapped(m: Memory, a: int, data: seq<Byte>, b: int, n: nat)
    requires !Apart(a, |data|, b, n) && data != [] && n > 0
    ensures !RangeFree(WriteBytes(m, a, data), b, n)
  {
    var x := if a < b then b else a;
    assert x in WriteBytes(m, a, data);
  }

  lemma RangeStaysFree(m: Memory, a: int, data: seq<Byte>, b: int, n: nat)
    requires Apart(a, |data|, b, n)
    ensures RangeFree(WriteBytes(m, a, data), b, n) <==> RangeFree(m, b, n)
  {
    hide WriteBytes;
    var m1 := WriteBytes(m, a, data);
    forall x | b <= x < b + n ensures x in m1 <==> x in m {}
  }

  lemma StillMappable(m: Memory, r: MemoryRegion, data: seq<Byte>, q: MemoryRegion)
    requires Mappable(m, r) && |data| == MappedLength(r)
    ensures Mappable(WriteBytes(m, r.start, data), q) <==> Mappable(m, q) && RegionsApart(r, q)
  {
    hide MappedLength, WriteBytes, Wrap, RangeFree;
    LengthPositive(r);
    if Wrap(q.end - q.start) > 0 {
      LengthPositive(q);
      if RegionsApart(r, q) {
        RangeStaysFree(m, r.start, data, q.start, MappedLength(q));
      } else {
        OverlapMapped(m, r.start, data, q.start, MappedLength(q));
      }
    }
  }

  /** Mapping succeeds exactly when every region could be mapped alone and no two of them overlap. */
  lemma {:induction false} MapSucceeds(m: Memory, rs: seq<MemoryRegion>, file: seq<Byte>, k: nat)
    requires k <= |rs|
    ensures MapFrom(m, rs, file, k).Some? <==> AllMappable(m, rs, k)
    decreases |rs| - k
  {
    hide Mappable, Content, RegionsApart, WriteBytes;
    if k < |rs| && Mappable(m, rs[k]) {
      var m1 := WriteBytes(m, rs[k].start, Content(rs[k], file));
      MapSucceeds(m1, rs, file, k + 1);
      forall i | k + 1 <= i < |rs| ensures Mappable(m1, rs[i]) <==> Mappable(m, rs[i]) && RegionsApart(rs[k], rs[i]) {
        StillMappable(m, rs[k], Content(rs[k], file), rs[i]);
      }
    }
  }

  /** What was mapped before stays as it was. */
  lemma {:induction false} MapKeeps(m: Memory, rs: seq<MemoryRegion>, file: seq<Byte>, k: nat, m1: Memory, a: int,
                                    data: seq<Byte>)
    requires k <= |rs| && MapFrom(m, rs, file, k) == Some(m1) && Holds(m, a, data)
    ensures Holds(m1, a, data)
    decreases |rs| - k
  {
    hide WriteBytes, Content, MappedLength;
    if k < |rs| {
      var next := WriteBytes(m, rs[k].start, Content(rs[k], file));
      assert forall x :: a <= x < a + |data| ==> x in m && x in next && next[x] == m[x];
      MapKeeps(next, rs, file, k + 1, m1, a, data);
    }
  }

  /** After the mapping every region shows its content. */
  lemma {:induction false} MapShows(m: Memory, rs: seq<MemoryRegion>, file: seq<Byte>, k: nat, m1: Memory, i: nat)
    requires k <= i < |rs| && MapFrom(m, rs, file, k) == Some(m1)
    ensures Holds(m1, rs[i].start, Content(rs[i], file))
    decreases |rs| - k
  {
    hide WriteBytes, Content, Mappable;
    var next := WriteBytes(m, rs[k].start, Content(rs[k], file));
    if i == k {
      assert Holds(next, rs[k].start, Content(rs[k], file));
      MapKeeps(next, rs, file, k + 1, m1, rs[i].start, Content(rs[i], file));
    } else {
      MapShows(next, rs, file, k + 1, m1, i);
    }
  }

  // ---------------------------------------------------------------- ELF segments

  lemma {:induction false} RegionIn(phs: seq<ProgramHeader>, rs: seq<MemoryRegion>, i: nat) returns (j: nat)
    requires Regions(phs) == Some(rs) && i < |phs| && phs[i].pType == PT_LOAD
    ensures phs[i].align > 0 && j < |rs| && rs[j] == RegionOf(phs[i])
  {
    hide RegionOf;
    var n := |phs| - 1;
    if i == n {
      j := |rs| - 1;
    } else {
      j := RegionIn(phs[..n], Regions(phs[..n]).value, i);
    }
  }

  // The segment and its region lie in the 64-bit address space at its run-time address, too.
  predicate FitsAt(ph: ProgramHeader, base: Word) {
    base + ph.vaddr + ph.memsz + ph.align + 0x1000 < WORD_LIMIT
  }

  function SegmentByte(ph: ProgramHeader, file: seq<Byte>, k: int): Byte {
    if ph.filesz > 0 then FileByte(file, ph.offset + k) else 0
  }

  /** From program header to memory, for regions moved by any base: byte `k` of a page-aligned segment is that of
      the file, to its very end in memory; a segment without bytes in the file is zero. */
  lemma SegmentLoaded(phs: seq<ProgramHeader>, rs: seq<MemoryRegion>, base: Word, m: Memory, file: seq<Byte>,
                      m1: Memory, i: nat, k: nat)
    requires Regions(phs) == Some(rs) && MapFrom(m, RebasedAll(rs, base), file, 0) == Some(m1)
    requires i < |phs| && phs[i].pType == PT_LOAD && PageAligned(phs[i]) && FitsAt(phs[i], base)
    requires phs[i].vaddr % PAGE_SIZE == phs[i].offset % PAGE_SIZE && k < phs[i].memsz
    ensures base + phs[i].vaddr + k in m1
    ensures m1[base + phs[i].vaddr + k] == SegmentByte(phs[i], file, k)
  {
    hide RegionOf, MapFrom, Regions, Content, MappedLength, Rebased, SegmentByte, ContentByte;
    var j := RegionIn(phs, rs, i);
    var r := RebasedAll(rs, base)[j];
    MapShows(m, RebasedAll(rs, base), file, 0, m1, j);
    ByteShown(phs[i], base, file, k);
    assert m1[base + phs[i].vaddr + k] == Content(r, file)[base + phs[i].vaddr + k - r.start];
  }

  lemma ByteShown(ph: ProgramHeader, base: Word, file: seq<Byte>, k: nat)
    requires PageAligned(ph) && FitsAt(ph, base) && ph.vaddr % PAGE_SIZE == ph.offset % PAGE_SIZE && k < ph.memsz
    ensures var r := Rebased(RegionOf(ph), base);
      && r.start <= base + ph.vaddr + k < r.start + MappedLength(r)
      && ContentByte(r, file, base + ph.vaddr + k - r.start) == SegmentByte(ph, file, k)
  {
    CoversSegment(ph);
    RebasedPlace(ph, base);
    LongEnough(Rebased(RegionOf(ph), base));
    if ph.filesz > 0 {
      FileStart(ph);
    }
    DirectMap(ph);
    hide RegionOf, MappedLength, AlignDown, Rebased, MemoryRegions.Covers;
  }

  lemma RebasedPlace(ph: ProgramHeader, base: Word)
    requires PageAligned(ph) && FitsAt(ph, base)
    ensures var r := Rebased(RegionOf(ph), base);
      && r.start == base + RegionOf(ph).start && r.end == base + RegionOf(ph).end
      && r.isDirectFileMap == RegionOf(ph).isDirectFileMap && r.fileOffset == RegionOf(ph).fileOffset
  {
    CoversSegment(ph);
    hide RegionOf;
  }

  lemma FileStart(ph: ProgramHeader)
    requires PageAligned(ph) && ph.filesz > 0 && ph.vaddr % PAGE_SIZE == ph.offset % PAGE_SIZE
    ensures RegionOf(ph).fileOffset - RegionOf(ph).start == ph.offset - ph.vaddr
  {
    MapsFile(ph);
    hide RegionOf;
    assert FilePosition(RegionOf(ph), ph.vaddr) == ph.offset;
  }

  lemma DirectMap(ph: ProgramHeader)
    requires ph.align > 0
    ensures RegionOf(ph).isDirectFileMap <==> ph.filesz > 0
  {
  }

  lemma LongEnough(r: MemoryRegion)
    requires r.start <= r.end
    ensures r.end - r.start <= MappedLength(r)
  {
  }

  // ---------------------------------------------------------------- behind the file's part of a segment

  predicate InRange(range: Option<(int, nat)>, x: int) {
    range.Some? && range.value.0 <= x < range.value.0 + range.value.1
  }

  /** Memory with the .bss section cleared, if there is one. */
  function RangeCleared(m: Memory, bss: Option<(int, nat)>): Memory {
    match bss
    case None => m
    case Some((at, n)) => WriteBytes(m, at, Zeros(n))
  }

  // The System V gABI (chapter 5, "Program Header"): the bytes from filesz to memsz are zero.
  ghost predicate SegmentPadded(m: Memory, ph: ProgramHeader, start: int) {
    forall x :: start + ph.filesz <= x < start + ph.memsz ==> x in m && m[x] == 0
  }

  predicate FileZeroOutside(ph: ProgramHeader, start: int, bss: Option<(int, nat)>, file: seq<Byte>) {
    forall x | start + ph.filesz <= x < start + ph.memsz && !InRange(bss, x) ::
      SegmentByte(ph, file, x - start) == 0
  }

  /** A segment is padded with zeros exactly when the file has zeros wherever the padding is outside .bss, or the
      segment has no bytes in the file. */
  lemma PaddedSegment(phs: seq<ProgramHeader>, rs: seq<MemoryRegion>, base: Word, m: Memory, file: seq<Byte>,
                      m1: Memory, i: nat, bss: Option<(int, nat)>)
    requires Regions(phs) == Some(rs) && MapFrom(m, RebasedAll(rs, base), file, 0) == Some(m1)
    requires i < |phs| && phs[i].pType == PT_LOAD && PageAligned(phs[i]) && FitsAt(phs[i], base)
    requires phs[i].vaddr % PAGE_SIZE == phs[i].offset % PAGE_SIZE
    ensures SegmentPadded(RangeCleared(m1, bss), phs[i], base + phs[i].vaddr)
            <==> FileZeroOutside(phs[i], base + phs[i].vaddr, bss, file)
  {
    hide MapFrom, Regions, RebasedAll, PageAligned, FitsAt, RangeCleared, PaddingShown, SegmentPadded, FileZeroOutside;
    PaddingBytes(phs, rs, base, m, file, m1, i, bss);
    PaddedWhenZero(RangeCleared(m1, bss), phs[i], base + phs[i].vaddr, bss, file);
  }

  // What is at an address of the segment once .bss is cleared.
  predicate ShowsAt(m: Memory, ph: ProgramHeader, start: int, bss: Option<(int, nat)>, file: seq<Byte>, x: int) {
    x in m && m[x] == if InRange(bss, x) then 0 else SegmentByte(ph, file, x - start)
  }

  lemma PaddingByte(phs: seq<ProgramHeader>, rs: seq<MemoryRegion>, base: Word, m: Memory, file: seq<Byte>, m1: Memory,
                    i: nat, bss: Option<(int, nat)>, x: int)
    requires Regions(phs) == Some(rs) && MapFrom(m, RebasedAll(rs, base), file, 0) == Some(m1)
    requires i < |phs| && phs[i].pType == PT_LOAD && PageAligned(phs[i]) && FitsAt(phs[i], base)
    requires phs[i].vaddr % PAGE_SIZE == phs[i].offset % PAGE_SIZE
    requires base + phs[i].vaddr <= x < base + phs[i].vaddr + phs[i].memsz
    ensures ShowsAt(RangeCleared(m1, bss), phs[i], base + phs[i].vaddr, bss, file, x)
  {
    hide MapFrom, Regions, RebasedAll, PageAligned, FitsAt, SegmentByte, InRange, RangeCleared;
    SegmentLoaded(phs, rs, base, m, file, m1, i, x - (base + phs[i].vaddr));
    ClearedAt(m1, bss, x);
  }

  lemma PaddingBytes(phs: seq<ProgramHeader>, rs: seq<MemoryRegion>, base: Word, m: Memory, file: seq<Byte>, m1: Memory,
                     i: nat, bss: Option<(int, nat)>)
    requires Regions(phs) == Some(rs) && MapFrom(m, RebasedAll(rs, base), file, 0) == Some(m1)
    requires i < |phs| && phs[i].pType == PT_LOAD && PageAligned(phs[i]) && FitsAt(phs[i], base)
    requires phs[i].vaddr % PAGE_SIZE == phs[i].offset % PAGE_SIZE
    ensures PaddingShown(RangeCleared(m1, bss), phs[i], base + phs[i].vaddr, bss, file)
  {
    hide MapFrom, Regions, RebasedAll, PageAligned, FitsAt, RangeCleared, ShowsAt;
    var start := base + phs[i].vaddr;
    forall x | start + phs[i].filesz <= x < start + phs[i].memsz
      ensures ShowsAt(RangeCleared(m1, bss), phs[i], start, bss, file, x)
    {
      PaddingByte(phs, rs, base, m, file, m1, i, bss, x);
    }
  }

  predicate PaddingShown(m: Memory, ph: ProgramHeader, start: int, bss: Option<(int, nat)>, file: seq<Byte>) {
    forall x | start + ph.filesz <= x < start + ph.memsz :: ShowsAt(m, ph, start, bss, file, x)
  }

  lemma PaddedWhenZero(m: Memory, ph: ProgramHeader, start: int, bss: Option<(int, nat)>, file: seq<Byte>)
    requires PaddingShown(m, ph, start, bss, file)
    ensures SegmentPadded(m, ph, start) <==> FileZeroOutside(ph, start, bss, file)
  {
    hide SegmentByte, InRange;
    forall x | start + ph.filesz <= x < start + ph.memsz
      ensures x in m && (m[x] == 0 <==> InRange(bss, x) || SegmentByte(ph, file, x - start) == 0)
    {
      assert ShowsAt(m, ph, start, bss, file, x);
    }
  }

  lemma ClearedAt(m: Memory, range: Option<(int, nat)>, x: int)
    requires x in m
    ensures x in RangeCleared(m, range) && RangeCleared(m, range)[x] == if InRange(range, x) then 0 else m[x]
  {
  }

  /** One byte in the file, three in memory, and .bss on the third one alone: the second one is the next byte of
      the file. */
  lemma GapShowsFile(m: Memory, base: Word, m1: Memory)
    requires base < 0x7fff_0000_0000
    requires var phs := [ProgramHeader(PT_LOAD, 6, 0, 0x1000, 1, 3, PAGE_SIZE)];
      Regions(phs).Some? && MapFrom(m, RebasedAll(Regions(phs).value, base), [7, 9], 0) == Some(m1)
    ensures var m2 := RangeCleared(m1, Some((base + 0x1002, 1)));
      base + 0x1001 in m2 && m2[base + 0x1001] == 9
  {
    var phs := [ProgramHeader(PT_LOAD, 6, 0, 0x1000, 1, 3, PAGE_SIZE)];
    hide MapFrom, Regions, RebasedAll;
    SegmentLoaded(phs, Regions(phs).value, base, m, [7, 9], m1, 0, 1);
  }
}
