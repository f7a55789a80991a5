/** From program headers to memory regions, and from regions to a reserved address range. */
module MemoryRegions {
  import opened Arithmetic
  import opened Words

  const PT_LOAD := 1

  datatype ProgramHeader = ProgramHeader(pType: nat, flags: nat, offset: Word, vaddr: Word, filesz: Word,
                                         memsz: Word, align: Word)

  datatype MemoryRegion = MemoryRegion(start: Word, end: Word, isDirectFileMap: bool, fileOffset: Word,
                                       fileSize: Word, permissions: nat)

  // ---------------------------------------------------------------- program headers to regions

  function AlignDown(x: nat, a: nat): nat
    requires a > 0
  {
    Times(Quotient(x, a), a)
  }

  /** The end before it is extended. */
  function FirstEnd(ph: ProgramHeader): Word
    requires ph.align > 0
  {
    Wrap(AlignDown(ph.vaddr, ph.align) + AlignDown(ph.memsz, ph.align) + ph.align)
  }

  function RegionOf(ph: ProgramHeader): MemoryRegion
    requires ph.align > 0
  {
    AlignDownBelow(ph.vaddr, ph.align);
    AlignDownBelow(ph.offset, ph.align);
    MemoryRegion(
      AlignDown(ph.vaddr, ph.align),
      if Wrap(ph.vaddr + ph.memsz) > FirstEnd(ph) then Wrap(FirstEnd(ph) + 0x1000) else FirstEnd(ph),
      ph.filesz > 0,
      AlignDown(ph.offset, ph.align),
      0,
      ph.flags)
  }

  /** What a region takes over from its header as it is. */
  lemma RegionFields(ph: ProgramHeader)
    requires ph.align > 0
    ensures RegionOf(ph).permissions == ph.flags && (RegionOf(ph).isDirectFileMap <==> ph.filesz > 0)
    ensures RegionOf(ph).fileSize == 0
  {
  }

  lemma AlignDownBelow(x: nat, a: nat)
    requires a > 0
    ensures AlignDown(x, a) == x - Remainder(x, a) && Remainder(x, a) < a
  {
    hide Times, Quotient, Remainder;
    Division(x, a);
  }

  function Regions(phs: seq<ProgramHeader>): Option<seq<MemoryRegion>> {
    if phs == [] then Some([])
    else
      match Regions(phs[..|phs| - 1])
      case None => None
      case Some(rs) =>
        var ph := phs[|phs| - 1];
        if ph.pType != PT_LOAD then Some(rs)
        else if ph.align == 0 then None
        else Some(rs + [RegionOf(ph)])
  }

  /** `get_memory_regions`; an alignment of zero is divided by. */
  method GetMemoryRegions(phs: seq<ProgramHeader>) returns (regions: Option<seq<MemoryRegion>>)
    ensures regions == Regions(phs)
  {
    hide RegionOf;
    var list: seq<MemoryRegion> := [];
    for i := 0 to |phs|
      invariant Regions(phs[..i]) == Some(list)
    {
      var ph := phs[i];
      assert phs[..i + 1][..i] == phs[..i];
      if ph.pType == PT_LOAD {
        if ph.align == 0 {
          NoRegions(phs, i + 1);
          return None;
        }
        var region := ReadProgramHeader(ph);
        list := list + [region];
      }
    }
    assert phs[..|phs|] == phs;
    return Some(list);
  }

  method ReadProgramHeader(ph: ProgramHeader) returns (region: MemoryRegion)
    requires ph.align > 0
    ensures region == RegionOf(ph)
  {
    hide Times, Quotient, Remainder;
    AlignDownBelow(ph.vaddr, ph.align);
    AlignDownBelow(ph.offset, ph.align);
    var fileOffset: Word := Times(Quotient(ph.offset, ph.align), ph.align);
    var start: Word := Times(Quotient(ph.vaddr, ph.align), ph.align);
    var end: Word := Wrap(start + Times(Quotient(ph.memsz, ph.align), ph.align) + ph.align);
    var maxRegionAddress := Wrap(ph.vaddr + ph.memsz);
    if maxRegionAddress > end {
      var extended := end + 0x1000;
      end := Wrap(extended);
    }
    region := MemoryRegion(start, end, ph.filesz > 0, fileOffset, 0, ph.flags);
  }

  lemma {:induction false} NoRegions(phs: seq<ProgramHeader>, n: nat)
    requires n <= |phs| && Regions(phs[..n]) == None
    ensures Regions(phs) == None
    decreases |phs| - n
  {
    if n < |phs| {
      assert phs[..n + 1][..n] == phs[..n];
      NoRegions(phs, n + 1);
    } else {
      assert phs[..n] == phs;
    }
  }

  // ---------------------------------------------------------------- what a region is good for

  // The segment and its region lie in the 64-bit address space.
  predicate FitsAddressSpace(ph: ProgramHeader) {
    ph.vaddr + ph.memsz + ph.align + 0x1000 < WORD_LIMIT
  }

  predicate Covers(ph: ProgramHeader)
    requires ph.align > 0
  {
    RegionOf(ph).start <= ph.vaddr && ph.vaddr + ph.memsz <= RegionOf(ph).end
  }

  /** The parts of address and size beyond the alignment. */
  function Overflow(ph: ProgramHeader): nat
    requires ph.align > 0
  {
    Remainder(ph.vaddr, ph.align) + Remainder(ph.memsz, ph.align)
  }

  lemma EndOf(ph: ProgramHeader)
    requires ph.align > 0 && FitsAddressSpace(ph)
    ensures RegionOf(ph).start == ph.vaddr - Remainder(ph.vaddr, ph.align)
    ensures FirstEnd(ph) == ph.vaddr + ph.memsz + ph.align - Overflow(ph)
    ensures RegionOf(ph).end == FirstEnd(ph) + (if Overflow(ph) > ph.align then 0x1000 else 0)
    ensures Remainder(ph.vaddr, ph.align) < ph.align && Remainder(ph.memsz, ph.align) < ph.align
  {
    hide Times, Quotient, Remainder, AlignDown;
    AlignDownBelow(ph.vaddr, ph.align);
    AlignDownBelow(ph.memsz, ph.align);
  }

  /** A region covers its segment exactly when what overflows the first end is at most the fixed extension
      of 0x1000; with page alignment or less that is always so, and the region is at most a page too long. */
  lemma CoversSegment(ph: ProgramHeader)
    requires ph.align > 0 && FitsAddressSpace(ph)
    ensures Covers(ph) <==> Overflow(ph) <= ph.align + 0x1000
    ensures ph.align <= PAGE_SIZE ==> Covers(ph) && RegionOf(ph).end <= ph.vaddr + ph.memsz + PAGE_SIZE
    ensures Covers(ph) && ph.align > PAGE_SIZE ==> RegionOf(ph).end <= ph.vaddr + ph.memsz + ph.align
  {
    hide Remainder, RegionOf, FirstEnd;
    EndOf(ph);
  }

  /** A larger alignment does fail: this segment reaches 0x6ffe bytes behind its first end, and 0x1000 are
      added. */
  lemma LargeAlignmentFails()
    ensures !Covers(ProgramHeader(PT_LOAD, 5, 0x7fff, 0x7fff, 0x7fff, 0x7fff, 0x8000))
  {
    var short := ProgramHeader(PT_LOAD, 5, 0x7fff, 0x7fff, 0x7fff, 0x7fff, 0x8000);
    assert Overflow(short) == 0xfffe;
    hide RegionOf, Overflow;
    CoversSegment(short);
  }

  /** The file position that the mapping puts at an address of the region. */
  function FilePosition(r: MemoryRegion, address: int): int {
    r.fileOffset + (address - r.start)
  }

  predicate MapsItsFile(ph: ProgramHeader)
    requires ph.align > 0
  {
    forall address | ph.vaddr <= address < ph.vaddr + ph.filesz ::
      FilePosition(RegionOf(ph), address) == ph.offset + (address - ph.vaddr)
  }

  /** Every byte of the segment comes from its place in the file exactly when address and offset agree
      modulo the alignment, as the System V gABI demands (chapter 5, "Program Header"). */
  lemma MapsFile(ph: ProgramHeader)
    requires ph.align > 0 && ph.filesz > 0
    ensures MapsItsFile(ph) <==> Remainder(ph.vaddr, ph.align) == Remainder(ph.offset, ph.align)
  {
    hide Times, Quotient, Remainder, AlignDown, FirstEnd;
    AlignDownBelow(ph.vaddr, ph.align);
    AlignDownBelow(ph.offset, ph.align);
    assert FilePosition(RegionOf(ph), ph.vaddr)
        == ph.offset - Remainder(ph.offset, ph.align) + Remainder(ph.vaddr, ph.align);
  }

  predicate PageAligned(ph: ProgramHeader) {
    ph.align == PAGE_SIZE && FitsAddressSpace(ph)
  }

  function Page(address: nat): nat {
    address / PAGE_SIZE
  }

  lemma PageEnd(ph: ProgramHeader)
    requires PageAligned(ph)
    ensures RegionOf(ph).start == Page(ph.vaddr) * PAGE_SIZE
    ensures RegionOf(ph).end == if ph.vaddr % PAGE_SIZE + ph.memsz % PAGE_SIZE == PAGE_SIZE then ph.vaddr + ph.memsz
                                else (Page(ph.vaddr + ph.memsz) + 1) * PAGE_SIZE
  {
    EndOf(ph);
    hide RegionOf, FirstEnd;
  }

  /** Segments on pages of their own get regions of their own, except that a segment of whole pages has one
      page too many, which is taken from a segment that follows at once. */
  lemma NextRegionApart(ph: ProgramHeader, next: ProgramHeader)
    requires PageAligned(ph) && PageAligned(next)
    requires ph.vaddr + ph.memsz <= next.vaddr && ph.memsz > 0
    requires Page(ph.vaddr + ph.memsz - 1) < Page(next.vaddr)
    ensures RegionOf(ph).end <= RegionOf(next).start
        <==> !(ph.vaddr % PAGE_SIZE == 0 && ph.memsz % PAGE_SIZE == 0
               && Page(next.vaddr) == Page(ph.vaddr + ph.memsz))
  {
    hide RegionOf, FirstEnd, Overflow;
    PageEnd(ph);
    PageEnd(next);
  }

  /** Two one-page segments: the first one's region takes the page of the second. */
  lemma WholePageOverlaps()
    ensures var ph := ProgramHeader(PT_LOAD, 5, 0x1000, 0x1000, 0x1000, 0x1000, PAGE_SIZE);
      var next := ph.(vaddr := 0x2000);
      RegionOf(ph).end == 0x3000 && RegionOf(next).start == 0x2000
  {
    var ph := ProgramHeader(PT_LOAD, 5, 0x1000, 0x1000, 0x1000, 0x1000, PAGE_SIZE);
    hide RegionOf;
    PageEnd(ph);
    PageEnd(ph.(vaddr := 0x2000));
  }

  // ---------------------------------------------------------------- reservation

  function TotalLength(rs: seq<MemoryRegion>): int {
    if rs == [] then 0 else TotalLength(rs[..|rs| - 1]) + rs[|rs| - 1].end - rs[|rs| - 1].start
  }

  function Rebased(r: MemoryRegion, base: Word): MemoryRegion {
    r.(start := Wrap(r.start + base), end := Wrap(r.end + base))
  }

  /** Moving a region changes neither its length nor, apart from its two ends, anything else, and it can be undone,
      even around the end of the address space. */
  lemma MovesOnly(r: MemoryRegion, base: Word)
    ensures Wrap(Rebased(r, base).end - Rebased(r, base).start) == Wrap(r.end - r.start)
    ensures Rebased(r, base).(start := r.start, end := r.end) == r
    ensures Wrap(Rebased(r, base).start - base) == r.start && Wrap(Rebased(r, base).end - base) == r.end
  {
    MovedWords(r.start, r.end, base);
    hide Wrap;
  }

  lemma MovedWords(start: Word, end: Word, base: Word)
    ensures Wrap(Wrap(end + base) - Wrap(start + base)) == Wrap(end - start)
    ensures Wrap(Wrap(start + base) - base) == start && Wrap(Wrap(end + base) - base) == end
  {
    WrapDifference(end + base, start + base, end - start);
    MovedBack(start, base);
    MovedBack(end, base);
    hide Wrap;
  }

  lemma MovedBack(w: Word, base: Word)
    ensures Wrap(Wrap(w + base) - base) == w
  {
    var moved := w + base;
    WrapCancels(moved, base);
    assert moved - base == w && Wrap(w) == w;
    hide Wrap;
  }

  lemma WrapDifference(a: int, b: int, d: int)
    requires a - b == d
    ensures Wrap(Wrap(a) - Wrap(b)) == Wrap(d)
  {
    hide Wrap;
    WrapCancels(a, Wrap(b));
    WrapCancels(a, b);
  }

  method ReservedLength(regions: array<MemoryRegion>) returns (length: Word)
    ensures length == Wrap(TotalLength(regions[..]))
  {
    length := 0;
    for i := 0 to regions.Length
      invariant length == Wrap(TotalLength(regions[..i]))
    {
      assert regions[..i + 1][..i] == regions[..i];
      WrapSum(TotalLength(regions[..i]), regions[i].end - regions[i].start);
      length := Wrap(length + (regions[i].end - regions[i].start));
    }
    assert regions[..regions.Length] == regions[..];
  }

  lemma WrapSum(a: int, b: int)
    ensures Wrap(Wrap(a) + b) == Wrap(a + b)
  {
    WrapCancels(a, -b);
  }

  /** `reserve_region_space`, given where the kernel finds room for the reserved length. */
  method ReserveRegionSpace(regions: array<MemoryRegion>, room: Word -> Option<Word>) returns (reserved: Option<Word>)
    modifies regions
    ensures reserved == room(Wrap(TotalLength(old(regions[..]))))
    ensures forall i :: 0 <= i < regions.Length ==>
      regions[i] == if reserved == None then old(regions[i]) else Rebased(old(regions[i]), reserved.value)
  {
    var length := ReservedLength(regions);
    reserved := room(length);
    if reserved == None {
      return;
    }
    for i := 0 to regions.Length
      invariant forall k :: 0 <= k < i ==> regions[k] == Rebased(old(regions[k]), reserved.value)
      invariant forall k :: i <= k < regions.Length ==> regions[k] == old(regions[k])
    {
      regions[i] := Rebased(regions[i], reserved.value);
    }
  }

  // ---------------------------------------------------------------- the reserved range is tiled

  // In address order, without overlaps, from `from` on.
  predicate Ordered(rs: seq<MemoryRegion>, from: int) {
    rs != [] ==> from <= rs[0].start <= rs[0].end && Ordered(rs[1..], rs[0].end)
  }

  predicate Contiguous(rs: seq<MemoryRegion>, from: int) {
    rs != [] ==> from == rs[0].start && Contiguous(rs[1..], rs[0].end)
  }

  function LastEnd(rs: seq<MemoryRegion>, from: int): int {
    if rs == [] then from else LastEnd(rs[1..], rs[0].end)
  }

  predicate InSome(rs: seq<MemoryRegion>, address: int) {
    rs != [] && (rs[0].start <= address < rs[0].end || InSome(rs[1..], address))
  }

  lemma {:induction false} TotalFromFront(rs: seq<MemoryRegion>)
    requires rs != []
    ensures TotalLength(rs) == rs[0].end - rs[0].start + TotalLength(rs[1..])
  {
    if |rs| == 1 {
      assert rs[..0] == [] && rs[1..] == [];
    } else {
      var n := |rs| - 1;
      TotalFromFront(rs[..n]);
      assert rs[..n][1..] == rs[1..][..n - 1];
    }
  }

  /** Regions in order end at their total length exactly when they are contiguous from 0; otherwise they
      end behind it. */
  lemma {:induction false} EndsAtTotal(rs: seq<MemoryRegion>, from: int)
    requires Ordered(rs, from)
    ensures LastEnd(rs, from) >= from + TotalLength(rs) >= from
    ensures LastEnd(rs, from) == from + TotalLength(rs) <==> Contiguous(rs, from)
  {
    if rs != [] {
      TotalFromFront(rs);
      EndsAtTotal(rs[1..], rs[0].end);
    }
  }

  lemma {:induction false} OrderedCovers(rs: seq<MemoryRegion>, from: int, address: int)
    requires Ordered(rs, from)
    ensures InSome(rs, address) ==> from <= address < LastEnd(rs, from)
    ensures from <= LastEnd(rs, from)
    ensures Contiguous(rs, from) && from <= address < LastEnd(rs, from) ==> InSome(rs, address)
  {
    if rs != [] {
      OrderedCovers(rs[1..], rs[0].end, address);
    }
  }

  function RebasedAll(rs: seq<MemoryRegion>, base: Word): seq<MemoryRegion> {
    seq(|rs|, i requires 0 <= i < |rs| => Rebased(rs[i], base))
  }

  lemma RebasedFirst(rs: seq<MemoryRegion>, base: Word)
    requires rs != [] && rs[0].start + base < WORD_LIMIT && rs[0].end + base < WORD_LIMIT
    ensures RebasedAll(rs, base) != []
    ensures RebasedAll(rs, base)[0].start == rs[0].start + base && RebasedAll(rs, base)[0].end == rs[0].end + base
    ensures RebasedAll(rs, base)[1..] == RebasedAll(rs[1..], base)
  {
  }

  lemma {:induction false} RebasingKeepsLayout(rs: seq<MemoryRegion>, from: nat, base: Word)
    requires Ordered(rs, from) && LastEnd(rs, from) + base < WORD_LIMIT
    ensures Ordered(RebasedAll(rs, base), from + base)
    ensures LastEnd(RebasedAll(rs, base), from + base) == LastEnd(rs, from) + base
    ensures Contiguous(RebasedAll(rs, base), from + base) <==> Contiguous(rs, from)
  {
    if rs != [] {
      OrderedCovers(rs[1..], rs[0].end, 0);
      RebasedFirst(rs, base);
      hide RebasedAll, Rebased;
      RebasingKeepsLayout(rs[1..], rs[0].end, base);
    }
  }

  /** Regions in address order stay inside what was reserved for them exactly when they are contiguous from
      address 0, and then they tile it: every reserved address is in a region and no other one is. */
  lemma TilesReservation(rs: seq<MemoryRegion>, base: Word)
    requires Ordered(rs, 0) && LastEnd(rs, 0) + base < WORD_LIMIT
    ensures LastEnd(RebasedAll(rs, base), base) <= base + TotalLength(rs) <==> Contiguous(rs, 0)
    ensures Contiguous(rs, 0) ==>
      forall address :: InSome(RebasedAll(rs, base), address) <==> base <= address < base + TotalLength(rs)
  {
    EndsAtTotal(rs, 0);
    RebasingKeepsLayout(rs, 0, base);
    if Contiguous(rs, 0) {
      forall address ensures InSome(RebasedAll(rs, base), address) <==> base <= address < base + TotalLength(rs) {
        OrderedCovers(RebasedAll(rs, base), base, address);
      }
    }
  }

  /** With a hole of two pages: two pages are reserved, and the second region lies behind them. */
  lemma HoleLeavesReservation(base: Word)
    requires base + 0x4000 < WORD_LIMIT
    ensures var rs := [MemoryRegion(0, 0x1000, true, 0, 0, 5), MemoryRegion(0x3000, 0x4000, true, 0, 0, 6)];
      Ordered(rs, 0) && TotalLength(rs) == 0x2000 && Rebased(rs[1], base).start == base + 0x3000
  {
    var rs := [MemoryRegion(0, 0x1000, true, 0, 0, 5), MemoryRegion(0x3000, 0x4000, true, 0, 0, 6)];
    assert rs[..1] == [rs[0]] && rs[..1][..0] == [];
    assert Ordered(rs[1..], rs[0].end);
    assert TotalLength(rs[..1]) == 0x1000;
  }
}
