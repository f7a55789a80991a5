/** When the sections of PE images can be mapped, and which addresses they take. */
module PeSpace {
  import opened AddressSpace
  import opened MemoryRegions
  import opened PeSections
  import opened RegionMapping
  import opened SectionBytes
  import opened WinImages
  import opened Words

  // ---------------------------------------------------------------- the addresses of regions

  predicate InRegion(r: MemoryRegion, x: int) {
    r.start <= x < r.start + MappedLength(r)
  }

  predicate InRegions(rs: seq<MemoryRegion>, k: nat, x: int) {
    exists j | k <= j < |rs| :: InRegion(rs[j], x)
  }

  lemma {:induction false} MappedAddresses(
    m: Memory, rs: seq<MemoryRegion>, file: seq<Byte>, k: nat, m1: Memory, x: int)
    requires k <= |rs| && MapFrom(m, rs, file, k) == Some(m1)
    ensures x in m1 <==> x in m || InRegions(rs, k, x)
    decreases |rs| - k
  {
    hide Mappable, MappedLength, Content, WriteBytes;
    if k < |rs| {
      var next := WriteBytes(m, rs[k].start, Content(rs[k], file));
      MappedAddresses(next, rs, file, k + 1, m1, x);
      assert x in next <==> x in m || InRegion(rs[k], x);
    }
  }

  lemma {:induction false} FilledAddresses(m: Memory, rs: seq<MemoryRegion>, file: seq<Byte>, k: nat, x: int)
    requires k <= |rs| && forall j :: 0 <= j < |rs| ==> HoldsFile(rs[j])
    requires InRegions(rs, 0, x) ==> x in m
    ensures x in FillFrom(m, rs, file, k) <==> x in m
    decreases |rs| - k
  {
    hide MappedLength, ReadInto, WriteBytes;
    if k < |rs| {
      ReadFits(rs[k], file);
      FilledAddresses(WriteBytes(m, rs[k].start, ReadInto(rs[k], file)), rs, file, k + 1, x);
    }
  }

  // ---------------------------------------------------------------- one image

  predicate InSectionPages(pe: PeData, k: nat, x: int)
    requires k < |pe.sections|
  {
    SectionStart(pe, k) <= x < SectionStart(pe, k) + SectionExtent(pe, k)
  }

  /** The address lies in the pages of a section of the image. */
  predicate InImage(pe: PeData, x: int) {
    exists k: nat | k < |pe.sections| :: InSectionPages(pe, k, x)
  }

  /** The section is not empty, starts on a page, and nothing is mapped in its pages. */
  predicate SectionFits(m: Memory, pe: PeData, k: nat)
    requires k < |pe.sections|
  {
    && pe.sections[k].virtualSize > 0 && SectionStart(pe, k) % PAGE_SIZE == 0
    && RangeFree(m, SectionStart(pe, k), SectionExtent(pe, k))
  }

  predicate SectionPagesApart(pe: PeData, k: nat, pe': PeData, k': nat)
    requires k < |pe.sections| && k' < |pe'.sections|
  {
    Apart(SectionStart(pe, k), SectionExtent(pe, k), SectionStart(pe', k'), SectionExtent(pe', k'))
  }

  ghost predicate SectionsFit(m: Memory, pe: PeData) {
    && (forall k: nat :: k < |pe.sections| ==> SectionFits(m, pe, k))
    && (forall k: nat, k': nat :: k < k' < |pe.sections| ==> SectionPagesApart(pe, k, pe, k'))
  }

  lemma SectionRegionFits(m: Memory, pe: PeData, k: nat)
    requires k < |pe.sections| && ImageInSpace(pe)
    ensures Mappable(m, SectionRegion(pe.sections[k], pe.imageBase)) <==> SectionFits(m, pe, k)
  {
    var r := SectionRegion(pe.sections[k], pe.imageBase);
    RegionOfSection(pe, [], k);
    PageUpNear(pe.sections[k].virtualSize);
    SizeOfRegion(pe, k);
    hide SectionRegion, PageUp, MappedLength, Wrap, RangeFree;
    assert r.start == SectionStart(pe, k) && MappedLength(r) == SectionExtent(pe, k);
  }

  lemma SizeOfRegion(pe: PeData, k: nat)
    requires k < |pe.sections| && ImageInSpace(pe)
    ensures var r := SectionRegion(pe.sections[k], pe.imageBase);
      && Wrap(r.end - r.start) == PageUp(pe.sections[k].virtualSize) && !r.isDirectFileMap
      && (PageUp(pe.sections[k].virtualSize) > 0 <==> pe.sections[k].virtualSize > 0)
  {
    assert pe.sections[k] in pe.sections;
    SectionLength(pe.sections[k], pe.imageBase);
  }

  /** An image can be mapped exactly when its sections fit and keep apart. */
  lemma ImageMapsWhen(m: Memory, pe: PeData)
    requires ImageInSpace(pe)
    ensures ImageMapped(m, pe, []).Some? <==> SectionsFit(m, pe)
  {
    hide MapFrom, FillFrom, SectionRegion, BssCleared, SectionFits, Mappable, MappedLength, SectionExtent;
    var rs := ImageRegions(pe, []);
    MapSucceeds(m, rs, pe.file, 0);
    forall k: nat | k < |pe.sections|
      ensures rs[k] == SectionRegion(pe.sections[k], pe.imageBase) && (Mappable(m, rs[k]) <==> SectionFits(m, pe, k))
      ensures rs[k].start == SectionStart(pe, k) && MappedLength(rs[k]) == SectionExtent(pe, k)
    {
      RegionOfSection(pe, [], k);
      SectionRegionFits(m, pe, k);
    }
    if AllMappable(m, rs, 0) {
      forall k: nat, k': nat | k < k' < |pe.sections| ensures SectionPagesApart(pe, k, pe, k') {
        assert RegionsApart(rs[k], rs[k']);
      }
    }
    if SectionsFit(m, pe) {
      forall i, j | 0 <= i < j < |rs| ensures RegionsApart(rs[i], rs[j]) {
        assert SectionPagesApart(pe, i, pe, j);
      }
    }
  }

  /** A mapped image takes the pages of its sections, those of its headers, and no other address. */
  lemma ImageAddresses(m: Memory, pe: PeData, headers: seq<MemoryRegion>, m1: Memory, x: int)
    requires ImageMapped(m, pe, headers) == Some(m1) && ImageInSpace(pe) && HeadersOk(headers)
    ensures x in m1 <==> x in m || InRegions(headers, 0, x) || InImage(pe, x)
  {
    hide MapFrom, FillFrom, SectionRegion, SectionExtent, MappedLength, SectionNamed;
    var rs := ImageRegions(pe, headers);
    var m2 := MapFrom(m, rs, pe.file, 0).value;
    MappedAddresses(m, rs, pe.file, 0, m2, x);
    forall j | 0 <= j < |rs| ensures HoldsFile(rs[j]) {
      RegionsHoldFile(pe, headers, j);
    }
    FilledAddresses(m2, rs, pe.file, 0, x);
    RegionsOfImage(pe, headers, x);
    if s :| SectionNamed(pe.sections, ".bss") == Some(s) {
      var k :| 0 <= k < |pe.sections| && pe.sections[k] == s;
      BssInside(pe, headers, k);
      assert SectionStart(pe, k) <= x < SectionStart(pe, k) + s.virtualSize ==> InSectionPages(pe, k, x);
    }
  }

  lemma RegionsOfImage(pe: PeData, headers: seq<MemoryRegion>, x: int)
    requires ImageInSpace(pe)
    ensures InRegions(ImageRegions(pe, headers), 0, x) <==> InRegions(headers, 0, x) || InImage(pe, x)
  {
    hide SectionRegion, SectionExtent, MappedLength;
    var rs := ImageRegions(pe, headers);
    forall k: nat | k < |pe.sections| ensures InRegion(rs[|headers| + k], x) <==> InSectionPages(pe, k, x) {
      RegionOfSection(pe, headers, k);
    }
    if j :| 0 <= j < |rs| && InRegion(rs[j], x) {
      assert j < |headers| ==> InRegion(headers[j], x);
      assert j >= |headers| ==> InSectionPages(pe, j - |headers|, x);
    }
    if j :| 0 <= j < |headers| && InRegion(headers[j], x) {
      assert InRegion(rs[j], x);
    }
    if k: nat :| k < |pe.sections| && InSectionPages(pe, k, x) {
      assert InRegion(rs[|headers| + k], x);
    }
  }
}
